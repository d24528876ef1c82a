/**
 The counter example's state and calls (CounterApplet.java): what each call does in the card's
 16-bit arithmetic, and the unbounded counter it stands for.
 */
module CounterState {
  import opened Wrappers

  const MAX_DATA_SIZE := 128
  const DEFAULT_LIMIT: short := 0x7FFF

  type short = x: int | -0x8000 <= x <= 0x7FFF

  /** A Java cast to short. */
  function ToShort(x: int): short {
    (x + 0x8000) % 0x1_0000 - 0x8000
  }

  datatype StatusWord = Overflow | Underflow | NoData | DataTooLong | EmptyChallenge | WrongLength

  datatype State = State(counter: short, limit: short, stored: Option<Bytes>)

  const INITIAL := State(0, DEFAULT_LIMIT, None)

  /** The calls that read or change the state; `capacity` is the room for a reply. */
  datatype Call =
    | Increment(amount: byte)
    | Decrement(amount: byte)
    | GetCounter
    | ResetCounter
    | SetLimit(limit: short)
    | Store(data: Bytes)
    | Load(capacity: int)

  datatype Reply = Number(value: short) | Data(bytes: Bytes) | Done | Refused(status: StatusWord)

  // One call as the applet computes it.
  function Step(s: State, call: Call): (State, Reply) {
    match call
    case Increment(amount) =>
      var newVal := ToShort(s.counter + amount);
      if newVal > s.limit || newVal < s.counter then (s, Refused(Overflow))
      else (s.(counter := newVal), Number(newVal))
    case Decrement(amount) =>
      if amount > s.counter then (s, Refused(Underflow))
      else (s.(counter := ToShort(s.counter - amount)), Number(ToShort(s.counter - amount)))
    case GetCounter => (s, Number(s.counter))
    case ResetCounter => (s.(counter := 0), Done)
    case SetLimit(limit) => (s.(limit := limit), Done)
    case Store(data) =>
      if |data| > MAX_DATA_SIZE then (s, Refused(DataTooLong)) else (s.(stored := Some(data)), Done)
    case Load(capacity) =>
      if s.stored.None? then (s, Refused(NoData))
      else if |s.stored.value| > capacity then (s, Refused(WrongLength))
      else (s, Data(s.stored.value))
  }

  function Run(calls: seq<Call>): State {
    if calls == [] then INITIAL
    else Step(Run(calls[..|calls| - 1]), calls[|calls| - 1]).0
  }

  /** What the calls mean for a counter without a word size. */
  datatype Ideal = Ideal(counter: int, limit: int)

  predicate Accepts(ideal: Ideal, call: Call) {
    match call
    case Increment(amount) => ideal.counter + amount <= ideal.limit
    case Decrement(amount) => ideal.counter - amount >= 0
    case _ => true
  }

  function IdealStep(ideal: Ideal, call: Call): Ideal {
    if !Accepts(ideal, call) then ideal
    else
      match call
      case Increment(amount) => ideal.(counter := ideal.counter + amount)
      case Decrement(amount) => ideal.(counter := ideal.counter - amount)
      case ResetCounter => ideal.(counter := 0)
      case SetLimit(limit) => ideal.(limit := limit)
      case _ => ideal
  }

  function IdealRun(calls: seq<Call>): Ideal {
    if calls == [] then Ideal(0, 0x7FFF)
    else IdealStep(IdealRun(calls[..|calls| - 1]), calls[|calls| - 1])
  }

  // Why a call is refused, as the unbounded counter would have it; None if it is accepted.
  function Refusal(s: State, call: Call): Option<StatusWord> {
    match call
    case Increment(amount) => if s.counter as int + amount > s.limit as int then Some(Overflow) else None
    case Decrement(amount) => if s.counter as int - amount < 0 then Some(Underflow) else None
    case Store(data) => if |data| > 128 then Some(DataTooLong) else None
    case Load(capacity) =>
      if s.stored.None? then Some(NoData) else if |s.stored.value| > capacity then Some(WrongLength) else None
    case _ => None
  }

  // Every refusal has its reason, and leaves every field as it was.
  lemma RefusalsAreExact(s: State, call: Call)
    requires 0 <= s.counter
    ensures var (s', reply) := Step(s, call);
            match Refusal(s, call)
            case None => !reply.Refused?
            case Some(status) => reply == Refused(status) && s' == s
  {
    if call.Increment? {
      var sum := s.counter + call.amount;
      if sum <= 0x7FFF {
        assert ToShort(sum) == sum;
      } else {
        assert ToShort(sum) == sum - 0x1_0000;
      }
    }
  }

  // The 16-bit counter is the unbounded one: no wrap-around is ever accepted, and a call is
  // refused exactly when the unbounded counter would leave its range.
  lemma StepRefinesIdeal(s: State, call: Call)
    requires 0 <= s.counter
    ensures var (s', reply) := Step(s, call);
            && 0 <= s'.counter
            && Ideal(s'.counter, s'.limit) == IdealStep(Ideal(s.counter, s.limit), call)
            && (call.Increment? || call.Decrement? ==> (reply.Refused? <==> !Accepts(Ideal(s.counter, s.limit), call)))
            && (reply.Number? ==> reply.value == s'.counter)
  {
    if call.Increment? {
      var sum := s.counter + call.amount;
      if sum <= 0x7FFF {
        assert ToShort(sum) == sum;
      } else {
        assert ToShort(sum) == sum - 0x1_0000;
      }
    }
  }

  lemma {:induction false} RunRefinesIdeal(calls: seq<Call>)
    ensures 0 <= Run(calls).counter <= 0x7FFF
    ensures Ideal(Run(calls).counter, Run(calls).limit) == IdealRun(calls)
  {
    if calls != [] {
      RunRefinesIdeal(calls[..|calls| - 1]);
      StepRefinesIdeal(Run(calls[..|calls| - 1]), calls[|calls| - 1]);
    }
  }

  /** Sum of the accepted increments less the accepted decrements in calls[from..until]. */
  function Net(calls: seq<Call>, from: nat, until: nat): int
    requires from <= until <= |calls|
    decreases until
  {
    if from == until then 0
    else
      var before, call := Net(calls, from, until - 1), calls[until - 1];
      if !Accepts(IdealRun(calls[..until - 1]), call) then before
      else if call.Increment? then before + call.amount
      else if call.Decrement? then before - call.amount
      else before
  }

  lemma {:induction false} CounterSince(calls: seq<Call>, from: nat, until: nat)
    requires from <= until <= |calls|
    requires forall i | from <= i < until :: !calls[i].ResetCounter?
    ensures IdealRun(calls[..until]).counter == IdealRun(calls[..from]).counter + Net(calls, from, until)
    decreases until
  {
    if from < until {
      CounterSince(calls, from, until - 1);
      assert calls[..until][..until - 1] == calls[..until - 1];
    }
  }

  // After any sequence of calls the counter is what was accepted since the last reset.
  lemma CounterIsNetSinceReset(calls: seq<Call>, from: nat)
    requires from <= |calls| && (from == 0 || calls[from - 1].ResetCounter?)
    requires forall i | from <= i < |calls| :: !calls[i].ResetCounter?
    ensures Run(calls).counter == Net(calls, from, |calls|)
  {
    RunRefinesIdeal(calls);
    assert calls[..|calls|] == calls;
    CounterSince(calls, from, |calls|);
    if from > 0 {
      assert calls[..from][..from - 1] == calls[..from - 1];
    }
  }

  /** The data of the last store that was accepted. */
  function LastStored(calls: seq<Call>): Option<Bytes> {
    if calls == [] then None
    else
      var last := calls[|calls| - 1];
      if last.Store? && |last.data| <= MAX_DATA_SIZE then Some(last.data)
      else LastStored(calls[..|calls| - 1])
  }

  // Load returns exactly the bytes of the last accepted store, or says that there is none; no
  // other call and no refused store changes that.
  lemma {:induction false} LoadReturnsLastStore(calls: seq<Call>, capacity: int)
    ensures Run(calls).stored == LastStored(calls)
    ensures Step(Run(calls), Load(capacity)).1
            == match LastStored(calls)
               case None => Refused(NoData)
               case Some(data) => if |data| <= capacity then Data(data) else Refused(WrongLength)
    ensures LastStored(calls).Some? ==> |LastStored(calls).value| <= MAX_DATA_SIZE
  {
    if calls != [] {
      LoadReturnsLastStore(calls[..|calls| - 1], capacity);
    }
  }
}
