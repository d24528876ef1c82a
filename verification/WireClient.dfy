/**
 The bridge as its client sees it (BridgeTestClient.java, MessageType.java): requests and replies
 byte by byte, and what a client is told compared with calling the card itself.
 */
module WireClient {
  import opened Wrappers
  import opened FrameCodec
  import opened CardMachine
  import opened Replies
  import opened Bridge
  import opened BridgeStructure
  import opened BridgeClients
  import opened BridgeIsolation
  import opened BridgeEndings
  import InstallParams

  // The payload that the client sends for an operation.
  function RequestFor(op: Op): (payload: Bytes)
    ensures payload != []
  {
    match op
    case Transmit(capdu) => [0x01] + capdu
    case Reset => [0x02]
    case GetAtr => [0x03]
  }

  // What the client makes of the reply: None is its exception about an unexpected response. The
  // tag of an ATR is not looked at, and the reply to a reset is kept whole.
  function Obtained(op: Op, reply: Bytes): Option<Bytes>
    requires reply != []
  {
    match op
    case Transmit(_) => if reply[0] == 0x81 then Some(reply[1..]) else None
    case Reset => Some(reply)
    case GetAtr => Some(reply[1..])
  }

  // The result of calling the card, as far as the client is told it.
  function ResultOf(op: Op, bytes: Bytes): Bytes {
    if op.Reset? then [0x82] else bytes
  }

  // The two bytes before a payload are its length, the high one first.
  lemma LengthIsBigEndian(payload: Bytes)
    requires Framable(payload)
    ensures Encode(payload)[0] as int * 256 + Encode(payload)[1] == |payload| && Encode(payload)[2..] == payload
  {
  }

  lemma RequestIsRead(op: Op, rest: Bytes)
    requires Framable(RequestFor(op))
    ensures NextFrame(Encode(RequestFor(op)) + rest) == Frame(RequestFor(op), rest)
    ensures Decode(RequestFor(op)) == CardCall(op)
  {
    ReadBack(RequestFor(op), rest);
  }

  // Every result that fits a frame reaches the client as it is.
  lemma ReplyIsUnderstood(op: Op, bytes: Bytes)
    requires |bytes| < MAX_FRAME
    ensures var answer := AnswerTo(op, Returned(bytes));
            && answer.Send?
            && answer.payload[0] == (match op case Transmit(_) => 0x81 case Reset => 0x82 case GetAtr => 0x83)
            && Obtained(op, answer.payload) == Some(ResultOf(op, bytes))
  {
  }

  // An error reply: the tag, the code, the length of the text in two bytes, the text.
  ghost predicate IsError(reply: Bytes, code: byte, text: Bytes) {
    && |reply| == 4 + |text| && reply[0] == 0xE0 && reply[1] == code
    && reply[2] as int * 256 + reply[3] == |text| && reply[4..] == text
  }

  lemma ErrorIsUnderstood(code: byte, text: Bytes)
    requires |text| <= MAX_FRAME - 4
    ensures ErrorAnswer(code, Some(text)).Send? && IsError(ErrorAnswer(code, Some(text)).payload, code, text)
  {
  }

  // An exception of the card reaches the client with its message; one without a message, with none.
  lemma ExceptionIsUnderstood(op: Op, message: Option<Bytes>)
    requires message.Some? ==> |message.value| <= MAX_FRAME - 4
    ensures var answer := AnswerTo(op, Threw(message));
            answer.Send? && IsError(answer.payload, 0x03, if message.Some? then message.value else [])
  {
  }

  // A result that does not fit a frame reaches the client as an error that gives the frame's length.
  lemma TooLongIsAnError(op: Op, bytes: Bytes)
    requires !op.Reset? && MAX_FRAME <= |bytes| < 0x7FFF_FFFF
    ensures var answer := AnswerTo(op, Returned(bytes));
            && answer.Send?
            && IsError(answer.payload, 0x03, Text("Frame too large: " + Decimal(1 + |bytes|)))
  {
    var text := Text("Frame too large: " + Decimal(1 + |bytes|));
    assert Pow10(5) == 100_000 && Pow10(10) == 100_000 * Pow10(5);
    DecimalLength(1 + |bytes|, 10);
    ErrorIsUnderstood(0x03, text);
  }

  // A message of an unknown type is refused with a text that ends in that type in hex.
  lemma UnknownTypeIsNamed(frame: Bytes)
    requires Framable(frame) && frame[0] !in {1, 2, 3, 4}
    ensures Decode(frame).Immediate? && Decode(frame).answer.Send?
    ensures exists text ::
              && IsError(Decode(frame).answer.payload, 0x02, text) && |text| == 26
              && InstallParams.HexByte(text[24] as char, text[25] as char) == frame[0]
  {
    var text := Text("Unknown message type: 0x") + [HexDigit(frame[0] / 16), HexDigit(frame[0] % 16)];
    ErrorIsUnderstood(0x02, text);
    var n := frame[0];
    assert InstallParams.Digit(HexDigit(n / 16) as char) == n / 16;
    assert InstallParams.Digit(HexDigit(n % 16) as char) == n % 16;
  }

  // A ping is three bytes, and so is its reply; the card is not asked.
  lemma PingOnTheWire<S, K>(card: Card<S, K>, s: S, rest: Bytes)
    ensures Alone(card, s, [0x00, 0x01, 0x04] + rest) == [[0x82]] + Alone(card, s, rest)
    ensures Encode([0x82]) == [0x00, 0x01, 0x82]
  {
    var frame: Bytes := [0x04];
    assert [0x00, 0x01, 0x04] + rest == Encode(frame) + rest;
    ReadBack(frame, rest);
  }

  // ---- A whole session.

  ghost predicate AllFit(ops: seq<Op>) {
    forall i | 0 <= i < |ops| :: Framable(RequestFor(ops[i]))
  }

  function Requests(ops: seq<Op>): (payloads: seq<Bytes>)
    requires AllFit(ops)
    ensures AllFramable(payloads)
  {
    if ops == [] then [] else [RequestFor(ops[0])] + Requests(ops[1..])
  }

  /** The operations called on the card directly; None if one fails or its result is too long. */
  ghost function Direct<S, K>(card: Card<S, K>, s: S, ops: seq<Op>): Option<seq<Bytes>> {
    if ops == [] then Some([])
    else
      match Whole(card, s, ops[0])
      case None => None
      case Some((s', outcome)) =>
        if !outcome.Returned? || |outcome.bytes| >= MAX_FRAME then None
        else
          var later := Direct(card, s', ops[1..]);
          if later.None? then None else Some([outcome.bytes] + later.value)
  }

  // The client obtains exactly these results from these replies.
  ghost predicate Understood(ops: seq<Op>, replies: seq<Bytes>, results: seq<Bytes>) {
    && |replies| == |results| == |ops|
    && forall i | 0 <= i < |ops| ::
         replies[i] != [] && Obtained(ops[i], replies[i]) == Some(ResultOf(ops[i], results[i]))
  }

  lemma UnderstoodCons(op: Op, reply: Bytes, result: Bytes, ops: seq<Op>, replies: seq<Bytes>, results: seq<Bytes>)
    requires reply != [] && Obtained(op, reply) == Some(ResultOf(op, result)) && Understood(ops, replies, results)
    ensures Understood([op] + ops, [reply] + replies, [result] + results)
  {
  }

  lemma OneMoreRequest<S, K>(card: Card<S, K>, s: S, op: Op, stream: Bytes)
    requires Framable(RequestFor(op)) && Whole(card, s, op).Some?
    requires var outcome := Whole(card, s, op).value.1; outcome.Returned? && |outcome.bytes| < MAX_FRAME
    ensures var (s', outcome) := Whole(card, s, op).value;
            && AnswerTo(op, outcome).Send?
            && Alone(card, s, Encode(RequestFor(op)) + stream)
               == [AnswerTo(op, outcome).payload] + Alone(card, s', stream)
  {
    RequestIsRead(op, stream);
    var (s', outcome) := Whole(card, s, op).value;
    assert Alone(card, s, Encode(RequestFor(op)) + stream) == AloneAnswer(card, s', AnswerTo(op, outcome), stream);
    ReplyIsUnderstood(op, Whole(card, s, op).value.1.bytes);
  }

  // Through the bridge, alone with its card, a client obtains what the card itself would return.
  lemma {:induction false} AloneIsDirect<S, K>(card: Card<S, K>, s: S, ops: seq<Op>)
    requires AllFit(ops) && Direct(card, s, ops).Some?
    ensures Understood(ops, Alone(card, s, EncodeAll(Requests(ops))), Direct(card, s, ops).value)
  {
    if ops != [] {
      var (s', outcome) := Whole(card, s, ops[0]).value;
      var stream := EncodeAll(Requests(ops[1..]));
      assert Requests(ops)[1..] == Requests(ops[1..]);
      OneMoreRequest(card, s, ops[0], stream);
      AloneIsDirect(card, s', ops[1..]);
      ReplyIsUnderstood(ops[0], outcome.bytes);
      UnderstoodCons(ops[0], AnswerTo(ops[0], outcome).payload, outcome.bytes,
                     ops[1..], Alone(card, s', stream), Direct(card, s', ops[1..]).value);
      assert ops == [ops[0]] + ops[1..];
    }
  }

  // From end to end, in connection scope, with any other connections doing anything: once its thread
  // has ended, the replies a client reads from its socket give the results of its operations called
  // on its own card directly, one after the other.
  lemma ClientsGetTheirCardsResults<S, K>(cfg: Config<S, K>, events: seq<Event>, c: nat, ops: seq<Op>)
    requires Run(cfg, events).Some? && cfg.scope == Connection && c < |Run(cfg, events).value.clients|
    requires Unbroken(events, c) && AllFit(ops)
    requires var client := Run(cfg, events).value.clients[c];
             client.sent == EncodeAll(Requests(ops)) && client.phase.Ended? && client.session.Some?
    requires var card := FreshCard(cfg, Run(cfg, events).value, c);
             card.Some? && Direct(cfg.card, card.value, ops).Some?
    ensures var srv := Run(cfg, events).value;
            Understood(ops, ReadAll(srv.clients[c].written).payloads,
                       Direct(cfg.card, FreshCard(cfg, srv, c).value, ops).value)
  {
    EndedIsAnswered(cfg, events, c);
    var srv := Run(cfg, events).value;
    var card := FreshCard(cfg, srv, c).value;
    var replies := Alone(cfg.card, card, srv.clients[c].sent);
    AloneIsDirect(cfg.card, card, ops);
    WrittenFramesAreRead(replies, []);
    assert ReadAll([]).payloads == [];
    assert EncodeAll(replies) + [] == EncodeAll(replies) && replies + [] == replies;
  }
}
