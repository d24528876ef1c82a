/** What a ClientHandler answers to one frame (ClientHandler.java), apart from the card itself. */
module Replies {
  import opened Wrappers
  import opened CardMachine
  import opened FrameCodec

  const APDU: byte := 0x01
  const RESET: byte := 0x02
  const GET_ATR: byte := 0x03
  const PING: byte := 0x04
  const APDU_RESPONSE: byte := 0x81
  const OK: byte := 0x82
  const ATR: byte := 0x83
  const ERROR: byte := 0xE0
  const ERR_MALFORMED: byte := 0x01
  const ERR_UNKNOWN_MSG: byte := 0x02
  const ERR_SIM_ERROR: byte := 0x03

  /** `HangUp` is an exception that leaves the handler's loop: the connection is closed. */
  datatype Answer = Send(payload: Bytes) | HangUp

  datatype Request = CardCall(op: Op) | Immediate(answer: Answer)

  function Text(s: string): (t: Bytes)
    ensures |t| == |s|
  {
    seq(|s|, i requires 0 <= i < |s| => s[i] as int % 256)
  }

  function HexDigit(n: nat): byte
    requires n < 16
  {
    if n < 10 then 48 + n else 55 + n
  }

  // An error payload too long for a frame makes sendError itself throw, outside any handler.
  function ErrorAnswer(code: byte, message: Option<Bytes>): (a: Answer)
    ensures a.Send? ==> Framable(a.payload)
  {
    var text := if message.Some? then message.value else [];
    if 4 + |text| > MAX_FRAME then HangUp
    else Send([ERROR, code] + Header(|text|) + text)
  }

  // A reply too long for a frame is refused by writeFrame, and that exception is answered.
  function Reply(tag: byte, body: Bytes): (a: Answer)
    ensures a.Send? ==> Framable(a.payload)
  {
    if 1 + |body| > MAX_FRAME then
      ErrorAnswer(ERR_SIM_ERROR, Some(Text("Frame too large: " + Decimal(1 + |body|))))
    else Send([tag] + body)
  }

  function Decode(frame: Bytes): Request
    requires Framable(frame)
  {
    match frame[0]
    case 0x01 => CardCall(Transmit(frame[1..]))
    case 0x02 => CardCall(Reset)
    case 0x03 => CardCall(GetAtr)
    case 0x04 => Immediate(Send([OK]))
    case kind => Immediate(ErrorAnswer(ERR_UNKNOWN_MSG,
      Some(Text("Unknown message type: 0x") + [HexDigit(kind / 16), HexDigit(kind % 16)])))
  }

  function AnswerTo(op: Op, outcome: Outcome): (a: Answer)
    ensures a.Send? ==> Framable(a.payload)
  {
    match outcome
    case Died => HangUp
    case Threw(message) => ErrorAnswer(ERR_SIM_ERROR, message)
    case Returned(bytes) =>
      match op
      case Transmit(_) => Reply(APDU_RESPONSE, bytes)
      case Reset => Send([OK])
      case GetAtr => Reply(ATR, bytes)
  }

  lemma {:induction false} DecimalLength(n: nat, digits: nat)
    requires digits >= 1 && n < Pow10(digits)
    ensures |Decimal(n)| <= digits
  {
    if n >= 10 {
      DecimalLength(n / 10, digits - 1);
    }
  }

  function Pow10(n: nat): nat {
    if n == 0 then 1 else 10 * Pow10(n - 1)
  }

  // A reply body is a Java array, so its length is an int.
  // Every frame gets exactly one reply, except when the card dies or throws with a message
  // that does not fit a frame: then there is none and the connection is closed.
  lemma RepliedUnless(op: Op, outcome: Outcome)
    requires outcome.Returned? ==> |outcome.bytes| < 0x8000_0000
    ensures AnswerTo(op, outcome).HangUp?
       <==> outcome.Died? || (outcome.Threw? && outcome.message.Some? && |outcome.message.value| > MAX_FRAME - 4)
  {
    if outcome.Returned? && 1 + |outcome.bytes| > MAX_FRAME {
      assert Pow10(5) == 100_000 && Pow10(10) == 100_000 * Pow10(5);
      DecimalLength(1 + |outcome.bytes|, 10);
    }
  }

  // A frame that is not a card operation is answered at once, without one exception; and the
  // reply the source keeps for empty payloads is never sent, since no frame is empty.
  lemma ImmediateRepliesAreSent(frame: Bytes)
    requires Framable(frame) && Decode(frame).Immediate?
    ensures frame[0] !in {APDU, RESET, GET_ATR}
    ensures Decode(frame).answer.Send? && Framable(Decode(frame).answer.payload)
    ensures frame[0] == PING ==> Decode(frame).answer.payload == [OK]
    ensures frame[0] != PING ==> Decode(frame).answer.payload[..2] == [ERROR, ERR_UNKNOWN_MSG]
  {
  }
}
