/** One connection's loop as the source runs it, with a session of its own (ClientHandler.java). */
module ClientHandler {
  import opened Wrappers
  import opened FrameCodec
  import opened CardMachine
  import opened Replies
  import opened BridgeIsolation

  /** SimulatorSession.java: the card is moved by the calls below and by nothing else. */
  class SimulatorSession<S(!new), K(!new)> {
    const card: Card<S, K>
    var sim: S

    constructor (card: Card<S, K>, sim: S)
      ensures this.card == card && this.sim == sim
    {
      this.card := card;
      this.sim := sim;
    }

    // A call into the simulator, observed for `steps` of its internal steps: None if it has not
    // returned by then. It is only made with the monitor held.
    method Call(op: Op, steps: nat) returns (outcome: Option<Outcome>)
      modifies this
      ensures Observed(card, old(sim), op, steps, sim, outcome)
    {
      var k := card.begin(op);
      for i := 0 to steps
        invariant Micro(card, sim, k, steps - i) == Micro(card, old(sim), card.begin(op), steps)
      {
        match card.step(sim, k)
        case Done(s, result) =>
          sim := s;
          return Some(result);
        case More(s, k') =>
          sim, k := s, k';
      }
      return None;
    }

    method TransmitAPDU(capdu: Bytes, steps: nat) returns (outcome: Option<Outcome>)
      modifies this
      ensures Observed(card, old(sim), Transmit(capdu), steps, sim, outcome)
    {
      outcome := Call(Transmit(capdu), steps);
    }

    method ResetCard(steps: nat) returns (outcome: Option<Outcome>)
      modifies this
      ensures Observed(card, old(sim), Op.Reset, steps, sim, outcome)
    {
      outcome := Call(Op.Reset, steps);
    }

    method GetATR(steps: nat) returns (outcome: Option<Outcome>)
      modifies this
      ensures Observed(card, old(sim), GetAtr, steps, sim, outcome)
    {
      outcome := Call(GetAtr, steps);
    }
  }

  // What `steps` steps of an operation come to: it is over, with an outcome, or still in progress.
  ghost predicate Observed<S, K>(card: Card<S, K>, s: S, op: Op, steps: nat, s': S, outcome: Option<Outcome>) {
    var progress := Micro(card, s, card.begin(op), steps);
    && s' == progress.state
    && match progress
       case Done(_, result) => outcome == Some(result)
       case More(_, _) => outcome == None
  }

  // An outcome is that of the whole operation; without one the operation takes longer, or for ever.
  lemma ObservedIsWhole<S, K>(card: Card<S, K>, s: S, op: Op, steps: nat, s': S, outcome: Option<Outcome>)
    requires Observed(card, s, op, steps, s', outcome)
    ensures outcome.Some? ==> Whole(card, s, op) == Some((s', outcome.value))
  {
    if outcome.Some? {
      FinishIs(card, s, card.begin(op), steps);
    }
  }

  /** `alive` is false when an exception leaves the handler's loop. */
  ghost predicate Answered(answer: Answer, before: Bytes, after: Bytes, alive: bool)
    requires answer.Send? ==> Framable(answer.payload)
  {
    match answer
    case Send(payload) => alive && after == before + Encode(payload)
    case HangUp => !alive && after == before
  }

  method SendOK(output: DataOutput) returns (alive: bool)
    modifies output
    ensures Answered(Send([OK]), old(output.written), output.written, alive)
  {
    alive := output.WriteFrame([OK]);
  }

  method SendError(output: DataOutput, code: byte, message: Option<Bytes>) returns (alive: bool)
    modifies output
    ensures Answered(ErrorAnswer(code, message), old(output.written), output.written, alive)
  {
    var text := if message.Some? then message.value else [];
    var high, low := |text| / 256 % 256, |text| % 256;
    assert |text| <= MAX_FRAME ==> [high, low] == Header(|text|);
    var response := [ERROR, code] + [high, low] + text;
    assert |response| == 4 + |text|;
    alive := output.WriteFrame(response);
  }

  // The body of handleAPDU and handleGetATR after the card has returned, with the catch around it.
  method SendReply(output: DataOutput, tag: byte, body: Bytes) returns (alive: bool)
    modifies output
    ensures Answered(Reply(tag, body), old(output.written), output.written, alive)
  {
    var response := [tag] + body;
    alive := output.WriteFrame(response);
    if !alive {
      alive := SendError(output, ERR_SIM_ERROR, Some(Text("Frame too large: " + Decimal(|response|))));
    }
  }

  method HandleOutcome(output: DataOutput, op: Op, outcome: Outcome) returns (alive: bool)
    modifies output
    ensures Answered(AnswerTo(op, outcome), old(output.written), output.written, alive)
  {
    match outcome
    case Died => alive := false;
    case Threw(message) => alive := SendError(output, ERR_SIM_ERROR, message);
    case Returned(bytes) =>
      match op {
        case Transmit(_) => alive := SendReply(output, APDU_RESPONSE, bytes);
        case Reset => alive := SendOK(output);
        case GetAtr => alive := SendReply(output, ATR, bytes);
      }
  }

  // Every call returns within so many steps.
  ghost predicate Returns<S(!new), K(!new)>(card: Card<S, K>, steps: nat) {
    forall s, op :: Micro(card, s, card.begin(op), steps).Done?
  }

  // How one frame moves the card and what it is answered.
  ghost predicate Turn<S, K>(card: Card<S, K>, s: S, frame: Bytes, s': S, answer: Answer)
    requires Framable(frame)
  {
    match Decode(frame)
    case Immediate(now) => s' == s && answer == now
    case CardCall(op) =>
      && Whole(card, s, op).Some?
      && s' == Whole(card, s, op).value.0
      && answer == AnswerTo(op, Whole(card, s, op).value.1)
  }

  lemma TurnOfAlone<S, K>(card: Card<S, K>, s: S, stream: Bytes, s': S, answer: Answer)
    requires NextFrame(stream).Frame? && Turn(card, s, NextFrame(stream).payload, s', answer)
    ensures answer.Send? ==> Framable(answer.payload)
    ensures Alone(card, s, stream) == AloneAnswer(card, s', answer, NextFrame(stream).rest)
  {
  }

  /** Where a handler stands after a frame: at the next one, gone, or still inside the card. */
  datatype Standing = Serving | Gone | InCard

  function AliveOr(alive: bool): Standing {
    if alive then Serving else Gone
  }

  method AnswerOutcome(output: DataOutput, op: Op, outcome: Option<Outcome>)
    returns (standing: Standing, ghost answer: Answer)
    modifies output
    ensures standing == InCard <==> outcome.None?
    ensures outcome.None? ==> output.written == old(output.written)
    ensures outcome.Some? ==>
      && answer == AnswerTo(op, outcome.value)
      && Answered(answer, old(output.written), output.written, standing == Serving)
  {
    if outcome.None? {
      return InCard, HangUp;
    }
    var alive := HandleOutcome(output, op, outcome.value);
    return AliveOr(alive), AnswerTo(op, outcome.value);
  }

  // One turn of the loop's switch.
  method HandleFrame<S(!new), K(!new)>(
      output: DataOutput, session: SimulatorSession<S, K>, frame: Bytes, steps: nat)
    returns (standing: Standing, ghost answer: Answer)
    requires Framable(frame)
    modifies output, session
    ensures standing != InCard ==>
      && Turn(session.card, old(session.sim), frame, session.sim, answer)
      && (answer.Send? ==> Framable(answer.payload))
      && Answered(answer, old(output.written), output.written, standing == Serving)
    ensures standing == InCard ==> output.written == old(output.written) && !Returns(session.card, steps)
  {
    var kind, body := frame[0], frame[1..];
    answer := HangUp;
    if kind == APDU {
      ghost var sim := session.sim;
      var outcome := session.TransmitAPDU(body, steps);
      ObservedIsWhole(session.card, sim, Transmit(body), steps, session.sim, outcome);
      standing, answer := AnswerOutcome(output, Transmit(body), outcome);
    } else if kind == RESET {
      ghost var sim := session.sim;
      var outcome := session.ResetCard(steps);
      ObservedIsWhole(session.card, sim, Op.Reset, steps, session.sim, outcome);
      standing, answer := AnswerOutcome(output, Op.Reset, outcome);
    } else if kind == GET_ATR {
      ghost var sim := session.sim;
      var outcome := session.GetATR(steps);
      ObservedIsWhole(session.card, sim, GetAtr, steps, session.sim, outcome);
      standing, answer := AnswerOutcome(output, GetAtr, outcome);
    } else if kind == PING {
      var alive := SendOK(output);
      standing, answer := AliveOr(alive), Send([OK]);
    } else {
      var message := Text("Unknown message type: 0x") + [HexDigit(kind / 16), HexDigit(kind % 16)];
      var alive := SendError(output, ERR_UNKNOWN_MSG, Some(message));
      standing, answer := AliveOr(alive), ErrorAnswer(ERR_UNKNOWN_MSG, Some(message));
    }
  }

  lemma EncodeAllSnoc(done: seq<Bytes>, payload: Bytes)
    requires AllFramable(done) && Framable(payload)
    ensures EncodeAll(done + [payload]) == EncodeAll(done) + Encode(payload)
  {
    EncodeAllConcat(done, [payload]);
    assert EncodeAll([payload]) == Encode(payload) + EncodeAll([]);
  }

  lemma OneMoreReply(start: Bytes, done: seq<Bytes>, payload: Bytes, later: seq<Bytes>)
    requires AllFramable(done) && Framable(payload)
    ensures start + EncodeAll(done) + Encode(payload) == start + EncodeAll(done + [payload])
    ensures done + ([payload] + later) == done + [payload] + later
  {
    EncodeAllSnoc(done, payload);
    Associative(start, EncodeAll(done), Encode(payload));
    Associative(done, [payload], later);
  }

  // One turn of the loop, after the replies `done`: one reply more, or the last turn there is.
  method ServeOne<S(!new), K(!new)>(
      input: DataInput, output: DataOutput, session: SimulatorSession<S, K>, steps: nat,
      ghost start: Bytes, ghost all: seq<Bytes>, ghost done: seq<Bytes>)
    returns (standing: Standing, ghost later: seq<Bytes>)
    requires input.Valid() && AllFramable(done) && AllFramable(all) && output.written == start + EncodeAll(done)
    requires all == done + Alone(session.card, session.sim, input.Unread())
    modifies input, output, session
    ensures input.Valid()
    ensures standing == Serving ==>
      && AllFramable(later) && output.written == start + EncodeAll(later)
      && all == later + Alone(session.card, session.sim, input.Unread())
      && |input.Unread()| < |old(input.Unread())|
    ensures standing == Gone ==> output.written == start + EncodeAll(all)
    ensures standing == InCard ==> !Returns(session.card, steps) && output.written <= start + EncodeAll(all)
  {
    ghost var s, unread := session.sim, input.Unread();
    later := done;
    assert done + [] == done;
    var read := input.ReadFrame();
    if read.Err? || read.value.None? {
      return Gone, later;
    }
    var frame := read.value.value;
    if |frame| < 1 {
      assert false; // the source answers ERR_MALFORMED here, but no frame is empty
    }
    ghost var answer;
    standing, answer := HandleFrame(output, session, frame, steps);
    if standing == InCard {
      EncodeAllPrefix(done, all);
    } else {
      TurnOfAlone(session.card, s, unread, session.sim, answer);
      if standing == Serving {
        OneMoreReply(start, done, answer.payload, Alone(session.card, session.sim, input.Unread()));
        later := done + [answer.payload];
      }
    }
  }

  // run(), observed for `steps` steps of each call into the card: the connection is written exactly
  // the replies that the transition system calls Alone, or those that come before a call that has
  // not returned. The loop ends because the peer's bytes do.
  method Serve<S(!new), K(!new)>(
      input: DataInput, output: DataOutput, session: SimulatorSession<S, K>, steps: nat)
    returns (inCard: bool)
    requires input.Valid()
    modifies input, output, session
    ensures inCard ==> !Returns(session.card, steps)
    ensures var all := old(output.written) + EncodeAll(Alone(session.card, old(session.sim), old(input.Unread())));
            if inCard then output.written <= all else output.written == all
  {
    ghost var start := output.written;
    ghost var all := Alone(session.card, session.sim, input.Unread());
    ghost var done: seq<Bytes> := [];
    var standing := Serving;
    while standing == Serving
      invariant input.Valid()
      invariant standing == Serving ==>
        && AllFramable(done) && output.written == start + EncodeAll(done)
        && all == done + Alone(session.card, session.sim, input.Unread())
      invariant standing == Gone ==> output.written == start + EncodeAll(all)
      invariant standing == InCard ==> !Returns(session.card, steps) && output.written <= start + EncodeAll(all)
      decreases standing == Serving, |input.Unread()|
    {
      standing, done := ServeOne(input, output, session, steps, start, all, done);
    }
    return standing == InCard;
  }
}
