/**
 The adapter from an APDU to the counter's dispatcher (CounterJCApplet.java), against a transport
 that may return any fragment sizes, and a dispatcher that may answer anything.
 */
module CounterProcess {
  import opened Wrappers

  const CLA_COUNTER: byte := 0xB0
  const OFFSET_CDATA := 5
  const SW_WRONG_LENGTH := 0x6700
  const SW_CLA_NOT_SUPPORTED := 0x6E00

  datatype Request = Request(ins: byte, p1: byte, p2: byte, data: Bytes)

  /** What the dispatcher does with a request: write a reply, or fail with a status word. */
  datatype Reply = Written(bytes: Bytes) | Failure(status: int)

  datatype Outcome = Finished | Refused(status: int)

  /** One receive call: the size it returns, and what it leaves in the rest of the buffer. */
  datatype Fragment = Fragment(size: int, noise: int -> byte)

  /**
   The transport's side of one command. `wire` is the request data the terminal sends; `script`
   decides what each receive call returns. A receive keeps what earlier ones put at OFFSET_CDATA
   and later, and may change anything else, the header included.
   */
  class Apdu {
    const buffer: array<byte>
    const wire: Bytes
    const declared: int
    const offsetCdata: int
    const script: nat -> Fragment
    var calls: nat
    var delivered: nat
    var sent: seq<Bytes>

    constructor (buffer: array<byte>, wire: Bytes, declared: int, offsetCdata: int, script: nat -> Fragment)
      ensures this.buffer == buffer && this.wire == wire && this.declared == declared
      ensures this.offsetCdata == offsetCdata && this.script == script
      ensures calls == 0 && delivered == 0 && sent == []
    {
      this.buffer, this.wire, this.declared := buffer, wire, declared;
      this.offsetCdata, this.script := offsetCdata, script;
      calls, delivered, sent := 0, 0, [];
    }

    method ReceiveBytes(offset: int) returns (size: int)
      requires delivered <= |wire|
      modifies this`calls, this`delivered, buffer
      ensures calls == old(calls) + 1 && size == script(old(calls)).size && delivered <= |wire|
      ensures forall i | OFFSET_CDATA <= i < offset && i < buffer.Length :: buffer[i] == old(buffer[i])
      ensures 0 <= offset && 0 <= size <= |wire| - old(delivered) && offset + size <= buffer.Length
              ==> && delivered == old(delivered) + size
                  && buffer[offset..offset + size] == wire[old(delivered)..delivered]
    {
      var fragment := script(calls);
      size := fragment.size;
      var fits := 0 <= offset && 0 <= size <= |wire| - delivered && offset + size <= buffer.Length;
      for i := 0 to buffer.Length
        modifies buffer
        invariant forall k | i <= k < buffer.Length :: buffer[k] == old(buffer[k])
        invariant forall k | OFFSET_CDATA <= k < offset && k < buffer.Length :: buffer[k] == old(buffer[k])
        invariant fits ==> forall k | offset <= k < offset + size && k < i :: buffer[k] == wire[delivered + k - offset]
      {
        if fits && offset <= i < offset + size {
          buffer[i] := wire[delivered + i - offset];
        } else if i < OFFSET_CDATA || offset <= i {
          buffer[i] := fragment.noise(i);
        }
      }
      calls := calls + 1;
      delivered := if fits then delivered + size else delivered;
    }

    method SetOutgoingAndSend(offset: nat, length: nat)
      requires offset + length <= buffer.Length
      modifies this`sent
      ensures sent == old(sent) + [buffer[offset..offset + length]]
    {
      sent := sent + [buffer[offset..offset + length]];
    }
  }

  /** The dispatcher: any behaviour that depends on the requests it has seen so far. */
  class Dispatcher {
    const behaviour: seq<Request> -> Reply
    var requests: seq<Request>

    constructor (behaviour: seq<Request> -> Reply)
      ensures this.behaviour == behaviour && requests == []
    {
      this.behaviour, requests := behaviour, [];
    }

    // The request window is read whole before the output window, which may overlap it, is written.
    method DispatchTo(ins: byte, p1: byte, p2: byte, request: array<byte>, offset: nat, length: nat,
                      output: array<byte>, outputOffset: nat, outputCapacity: nat)
      returns (r: Result<nat, int>)
      requires offset + length <= request.Length && outputOffset + outputCapacity <= output.Length
      modifies this, output
      ensures requests == old(requests) + [Request(ins, p1, p2, old(request[offset..offset + length]))]
      ensures r == match behaviour(requests)
                   case Written(bytes) => if |bytes| <= outputCapacity then Ok(|bytes|) else Err(SW_WRONG_LENGTH)
                   case Failure(status) => Err(status)
      ensures r.Ok? ==> output[outputOffset..outputOffset + r.value] == behaviour(requests).bytes
    {
      requests := requests + [Request(ins, p1, p2, request[offset..offset + length])];
      match behaviour(requests) {
        case Failure(status) => return Err(status);
        case Written(bytes) =>
          if |bytes| > outputCapacity {
            return Err(SW_WRONG_LENGTH);
          }
          for i := 0 to |bytes|
            modifies output
            invariant output[outputOffset..outputOffset + i] == bytes[..i]
          {
            output[outputOffset + i] := bytes[i];
          }
          return Ok(|bytes|);
      }
    }
  }

  /** From receive call k on, the fragments add up to exactly `remaining` bytes, none of them empty. */
  predicate Delivers(script: nat -> Fragment, k: nat, remaining: nat)
    decreases remaining
  {
    remaining == 0 || (0 < script(k).size <= remaining && Delivers(script, k + 1, remaining - script(k).size))
  }

  function Total(script: nat -> Fragment, k: nat, n: nat): int
    decreases n
  {
    if n == 0 then 0 else script(k).size + Total(script, k + 1, n - 1)
  }

  ghost predicate AddUp(script: nat -> Fragment, k: nat, remaining: int, n: nat) {
    (forall i | k <= i < k + n :: script(i).size > 0) && Total(script, k, n) == remaining
  }

  ghost predicate SomeAddUp(script: nat -> Fragment, k: nat, remaining: int) {
    exists n: nat :: AddUp(script, k, remaining, n)
  }

  // Said without the loop: some number of positive fragments adds up to what is missing.
  lemma {:induction false} DeliversIff(script: nat -> Fragment, k: nat, remaining: nat)
    ensures Delivers(script, k, remaining) <==> SomeAddUp(script, k, remaining)
    decreases remaining
  {
    if remaining == 0 {
      assert AddUp(script, k, 0, 0);
    } else {
      var size := script(k).size;
      if 0 < size <= remaining {
        DeliversIff(script, k + 1, remaining - size);
        var next, later := k + 1, remaining - size;
        if n: nat :| AddUp(script, next, later, n) {
          assert AddUp(script, k, remaining, n + 1);
        }
      }
      if n: nat :| AddUp(script, k, remaining, n) {
        TotalIsPositive(script, k + 1, n - 1);
        assert AddUp(script, k + 1, remaining - size, n - 1);
      }
    }
  }

  lemma {:induction false} TotalIsPositive(script: nat -> Fragment, k: nat, n: nat)
    requires forall i | k <= i < k + n :: script(i).size > 0
    ensures Total(script, k, n) >= n
    decreases n
  {
    if n > 0 {
      TotalIsPositive(script, k + 1, n - 1);
    }
  }

  // When the request is taken: a short APDU that fits the buffer, delivered in whole fragments.
  predicate Receivable(declared: int, offsetCdata: int, bufferLength: nat, script: nat -> Fragment) {
    && offsetCdata == OFFSET_CDATA && 0 <= declared <= 255
    && OFFSET_CDATA + declared <= bufferLength <= 32767
    && 0 <= script(0).size <= declared
    && Delivers(script, 1, declared - script(0).size)
  }

  // Said without the loop: the length fits the one byte that a short command has for it, the command
  // fits the buffer, and a first fragment, which may be empty, and further ones, which may not, add
  // up to the length.
  lemma ReceivableIff(declared: int, offsetCdata: int, bufferLength: nat, script: nat -> Fragment)
    ensures Receivable(declared, offsetCdata, bufferLength, script)
       <==> && offsetCdata == 5 && 0 <= declared < 0x100 && 5 + declared <= bufferLength <= 0x7FFF
            && script(0).size >= 0 && SomeAddUp(script, 1, declared - script(0).size)
  {
    if script(0).size <= declared {
      DeliversIff(script, 1, declared - script(0).size);
    } else {
      NothingAddsUp(script, 1, declared - script(0).size);
    }
  }

  lemma NothingAddsUp(script: nat -> Fragment, k: nat, remaining: int)
    requires remaining < 0
    ensures !SomeAddUp(script, k, remaining)
  {
    if n: nat :| AddUp(script, k, remaining, n) {
      TotalIsPositive(script, k, n);
    }
  }

  // The bytes of a short command with data.
  function Command(request: Request): Bytes
    requires |request.data| <= 255
  {
    [0xB0, request.ins, request.p1, request.p2, |request.data|] + request.data
  }

  // So a short command that fits the buffer and is delivered at once is always taken.
  lemma WholeCommandIsTaken(request: Request, bufferLength: nat, script: nat -> Fragment)
    requires |request.data| <= 255 && script(0).size == |request.data|
    ensures Receivable(|request.data|, 5, bufferLength, script) <==> |Command(request)| <= bufferLength <= 0x7FFF
  {
  }

  // The receive loop, from `received` bytes on.
  method ReceiveRest(apdu: Apdu, received: nat) returns (whole: bool)
    requires apdu.declared == |apdu.wire| && received <= |apdu.wire| && apdu.delivered == received
    requires OFFSET_CDATA + |apdu.wire| <= apdu.buffer.Length
    requires apdu.buffer[OFFSET_CDATA..OFFSET_CDATA + received] == apdu.wire[..received]
    modifies apdu`calls, apdu`delivered, apdu.buffer
    ensures whole <==> Delivers(apdu.script, old(apdu.calls), apdu.declared - received)
    ensures whole ==> apdu.buffer[OFFSET_CDATA..OFFSET_CDATA + |apdu.wire|] == apdu.wire
    ensures apdu.calls <= old(apdu.calls) + apdu.declared - received
  {
    var got := received;
    while got < apdu.declared
      invariant received <= got <= apdu.declared && apdu.delivered == got
      invariant apdu.buffer[OFFSET_CDATA..OFFSET_CDATA + got] == apdu.wire[..got]
      invariant Delivers(apdu.script, old(apdu.calls), apdu.declared - received)
            <==> Delivers(apdu.script, apdu.calls, apdu.declared - got)
      invariant apdu.calls <= old(apdu.calls) + got - received
      decreases apdu.declared - got
    {
      ghost var before := apdu.buffer[OFFSET_CDATA..OFFSET_CDATA + got];
      var fragment := apdu.ReceiveBytes(OFFSET_CDATA + got);
      assert apdu.buffer[OFFSET_CDATA..OFFSET_CDATA + got] == before;
      if fragment <= 0 || fragment > apdu.declared - got {
        return false;
      }
      assert apdu.buffer[OFFSET_CDATA..OFFSET_CDATA + got + fragment]
          == before + apdu.buffer[OFFSET_CDATA + got..OFFSET_CDATA + got + fragment];
      assert apdu.wire[..got] + apdu.wire[got..got + fragment] == apdu.wire[..got + fragment];
      got := got + fragment;
    }
    return true;
  }

  // Receives the request into the buffer, or says that it is not to be dispatched.
  method ReceiveRequest(apdu: Apdu) returns (whole: bool)
    requires apdu.calls == 0 && apdu.delivered == 0 && (apdu.declared >= 0 ==> apdu.declared == |apdu.wire|)
    modifies apdu`calls, apdu`delivered, apdu.buffer
    ensures whole <==> Receivable(apdu.declared, apdu.offsetCdata, apdu.buffer.Length, apdu.script)
    ensures whole ==> apdu.buffer[OFFSET_CDATA..OFFSET_CDATA + |apdu.wire|] == apdu.wire
    ensures apdu.calls <= 1 + |apdu.wire|
  {
    var received := apdu.ReceiveBytes(apdu.offsetCdata);
    if apdu.offsetCdata != OFFSET_CDATA || apdu.declared < 0 || apdu.declared > 255
       || apdu.buffer.Length > 32767 || apdu.offsetCdata > apdu.buffer.Length
       || apdu.declared > apdu.buffer.Length - apdu.offsetCdata
       || received < 0 || received > apdu.declared {
      return false;
    }
    assert apdu.buffer[OFFSET_CDATA..OFFSET_CDATA + received] == apdu.wire[..received];
    whole := ReceiveRest(apdu, received);
  }

  // Either nothing is dispatched and nothing sent, or one request is dispatched, whole and with
  // the header as it was before the transport touched the buffer, and its reply sent if there is one.
  method Process(apdu: Apdu, logic: Dispatcher, selecting: bool) returns (r: Outcome)
    requires apdu.buffer.Length >= OFFSET_CDATA
    requires apdu.calls == 0 && apdu.delivered == 0 && (apdu.declared >= 0 ==> apdu.declared == |apdu.wire|)
    modifies apdu, apdu.buffer, logic
    ensures selecting ==> r == Finished
    ensures !selecting && old(apdu.buffer[0]) != 0xB0 ==> r == Refused(0x6E00)
    ensures selecting || old(apdu.buffer[0]) != 0xB0
            ==> apdu.calls == 0 && apdu.sent == old(apdu.sent) && logic.requests == old(logic.requests)
    ensures !selecting && old(apdu.buffer[0]) == 0xB0
            ==> if !Receivable(apdu.declared, apdu.offsetCdata, apdu.buffer.Length, apdu.script) then
                  r == Refused(0x6700) && apdu.sent == old(apdu.sent) && logic.requests == old(logic.requests)
                else
                  && logic.requests == old(logic.requests)
                       + [Request(old(apdu.buffer[1]), old(apdu.buffer[2]), old(apdu.buffer[3]), apdu.wire)]
                  && Answered(logic.behaviour(logic.requests), Min(apdu.buffer.Length, 255),
                              old(apdu.sent), apdu.sent, r)
    ensures apdu.calls <= 1 + |apdu.wire|
  {
    if selecting {
      return Finished;
    }
    var buffer := apdu.buffer;
    if buffer[0] != CLA_COUNTER {
      return Refused(SW_CLA_NOT_SUPPORTED);
    }
    var ins, p1, p2 := buffer[1], buffer[2], buffer[3];
    var whole := ReceiveRequest(apdu);
    if !whole {
      return Refused(SW_WRONG_LENGTH);
    }
    var outputCapacity := if buffer.Length > 255 then 255 else buffer.Length;
    var produced := logic.DispatchTo(ins, p1, p2, buffer, OFFSET_CDATA, apdu.declared, buffer, 0, outputCapacity);
    match produced {
      case Ok(n) =>
        if n > 0 {
          apdu.SetOutgoingAndSend(0, n);
        }
        return Finished;
      case Err(status) => return Refused(status);
    }
  }

  function Min(a: int, b: int): int {
    if a < b then a else b
  }

  // What the terminal sees of a dispatched request: exactly the reply's bytes, or its status word.
  predicate Answered(reply: Reply, capacity: int, before: seq<Bytes>, sent: seq<Bytes>, r: Outcome) {
    match reply
    case Failure(status) => r == Refused(status) && sent == before
    case Written(bytes) =>
      if |bytes| > capacity then r == Refused(0x6700) && sent == before
      else r == Finished && sent == if bytes == [] then before else before + [bytes]
  }
}
