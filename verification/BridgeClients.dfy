/** What each connection sees: its own frames answered once each, in order, from the log. */
module BridgeClients {
  import opened Wrappers
  import opened FrameCodec
  import opened CardMachine
  import opened Replies
  import opened Bridge
  import opened BridgeStructure
  import opened BridgeSerial

  /** The card operations a stream of frames asks for. */
  function CardOps(stream: Bytes): seq<Op>
    decreases |stream|
  {
    match NextFrame(stream)
    case Frame(payload, rest) =>
      var later := CardOps(rest);
      if Decode(payload).CardCall? then [Decode(payload).op] + later else later
    case _ => []
  }

  function Frames(stream: Bytes): nat {
    |ReadAll(stream).payloads|
  }

  /** The replies a connection is owed for `stream` when its operations end as `entries` say. */
  function Told(stream: Bytes, entries: seq<Entry>): seq<Bytes>
    decreases |stream|, 0
  {
    match NextFrame(stream)
    case Frame(payload, rest) =>
      (match Decode(payload)
       case Immediate(answer) => ToldAnswer(answer, rest, entries)
       case CardCall(op) => ToldCall(op, rest, entries))
    case _ => []
  }

  function ToldCall(op: Op, rest: Bytes, entries: seq<Entry>): seq<Bytes>
    decreases |rest|, 2
  {
    if entries == [] || entries[0].op != op then []
    else ToldAnswer(AnswerTo(op, entries[0].outcome), rest, entries[1..])
  }

  function ToldAnswer(answer: Answer, rest: Bytes, entries: seq<Entry>): seq<Bytes>
    decreases |rest|, 1
  {
    match answer
    case Send(payload) => [payload] + Told(rest, entries)
    case HangUp => []
  }

  function Pending<K>(phase: Phase<K>): seq<Op> {
    match phase
    case Waiting(op) => [op]
    case Inside(op, _) => [op]
    case _ => []
  }

  function Owed<K>(client: Client<K>, future: seq<Entry>): seq<Bytes> {
    match client.phase
    case Waiting(op) => ToldCall(op, client.unread, future)
    case Inside(op, _) => ToldCall(op, client.unread, future)
    case Replying(reply) => [reply] + Told(client.unread, future)
    case _ => Told(client.unread, future)
  }

  // Whatever is logged later, what has been answered plus what is owed is what the log tells; and
  // a thread with a session ends by itself only when nothing is owed any more.
  ghost predicate Settles<K>(client: Client<K>, mine: seq<Entry>, future: seq<Entry>) {
    match client.phase
    case Ended =>
      if client.session.Some? then client.answered == Told(client.sent, mine + future) else client.answered == []
    case Lost => client.answered <= Told(client.sent, mine + future)
    case Broken(due, _) => client.answered + [due] <= Told(client.sent, mine + future)
    case _ => Told(client.sent, mine + future) == client.answered + Owed(client, future)
  }

  // One reply per frame taken from the stream; the frame in work has none yet, and only a
  // connection that has ended may owe one for ever.
  ghost predicate Counted<K>(client: Client<K>) {
    var taken := Frames(client.sent) - Frames(client.unread);
    match client.phase
    case Accepted | Reading | Lost => taken == |client.answered|
    case Ended => |client.answered| <= taken <= |client.answered| + 1
    case _ => taken == |client.answered| + 1
  }

  ghost predicate Orderly<K>(client: Client<K>, mine: seq<Entry>) {
    && CardOps(client.sent) == Ops(mine) + Pending(client.phase) + CardOps(client.unread)
    && Counted(client)
    && forall future :: Settles(client, mine, future)
  }

  lemma ReadSettles<K>(client: Client<K>, mine: seq<Entry>, future: seq<Entry>)
    requires client.phase.Reading? && client.session.Some? && Settles(client, mine, future)
    ensures Settles(ReadStep(client), mine, future)
  {
    var after := ReadStep(client);
    if after.phase.Replying? {
      assert ToldAnswer(Send(after.phase.reply), after.unread, future) == Owed(after, future);
    }
  }

  lemma ReadCounts<K>(client: Client<K>)
    requires client.phase.Reading? && Counted(client)
    ensures Counted(ReadStep(client))
    ensures Pending(ReadStep(client).phase) + CardOps(ReadStep(client).unread) == CardOps(client.unread)
  {
  }

  lemma ReadKeepsOps(done: seq<Op>, pending: seq<Op>, later: seq<Op>, all: seq<Op>)
    requires pending + later == all
    ensures done + pending + later == done + [] + all
  {
  }

  lemma ReadOrderly<K>(client: Client<K>, mine: seq<Entry>)
    requires client.phase.Reading? && client.session.Some? && Orderly(client, mine)
    ensures Orderly(ReadStep(client), mine)
  {
    var after := ReadStep(client);
    ReadCounts(client);
    ReadKeepsOps(Ops(mine), Pending(after.phase), CardOps(after.unread), CardOps(client.unread));
    forall future ensures Settles(after, mine, future) {
      ReadSettles(client, mine, future);
    }
  }

  lemma ReplyOrderly<K>(client: Client<K>, mine: seq<Entry>)
    requires client.phase.Replying? && Framable(client.phase.reply) && Orderly(client, mine)
    ensures Orderly(ReplyStep(client), mine)
  {
    forall future ensures Settles(ReplyStep(client), mine, future) {
      assert Settles(client, mine, future);
      Associative(client.answered, [client.phase.reply], Told(client.unread, future));
    }
  }

  lemma BreakOrderly<K>(client: Client<K>, mine: seq<Entry>, kept: nat)
    requires BreakStep(client, kept).Some? && Orderly(client, mine)
    requires client.phase.Accepted? ==> client.unread == client.sent && client.answered == []
    ensures Orderly(BreakStep(client, kept).value, mine)
  {
    var after := BreakStep(client, kept).value;
    forall future ensures Settles(after, mine, future) {
      assert Settles(client, mine, future);
      if after.phase.Broken? {
        Associative(client.answered, [after.phase.due], Told(client.unread, future));
      }
    }
  }

  // Entering the monitor, and every internal step of the card, is invisible to the connection.
  lemma InsideOrderly<K>(client: Client<K>, mine: seq<Entry>, op: Op, k: K)
    requires client.phase == Waiting(op) || (client.phase.Inside? && client.phase.op == op)
    requires Orderly(client, mine)
    ensures Orderly(client.(phase := Inside(op, k)), mine)
  {
    forall future ensures Settles(client.(phase := Inside(op, k)), mine, future) {
      assert Settles(client, mine, future);
    }
  }

  lemma DoneSettles<K>(client: Client<K>, mine: seq<Entry>, entry: Entry, future: seq<Entry>)
    requires client.phase.Inside? && client.session.Some? && client.phase.op == entry.op
    requires Settles(client, mine, [entry] + future)
    ensures Settles(client.(phase := AfterAnswer(AnswerTo(entry.op, entry.outcome))), mine + [entry], future)
  {
    var after := client.(phase := AfterAnswer(AnswerTo(entry.op, entry.outcome)));
    Associative(mine, [entry], future);
    assert ([entry] + future)[1..] == future;
    assert ToldCall(entry.op, client.unread, [entry] + future)
        == ToldAnswer(AnswerTo(entry.op, entry.outcome), client.unread, future);
    assert client.answered + [] == client.answered;
    if after.phase.Replying? {
      assert ToldAnswer(Send(after.phase.reply), client.unread, future) == Owed(after, future);
    }
  }

  lemma DoneCounts<K>(client: Client<K>, mine: seq<Entry>, entry: Entry)
    requires client.phase.Inside? && client.phase.op == entry.op && Counted(client)
    ensures var after := client.(phase := AfterAnswer(AnswerTo(entry.op, entry.outcome)));
            Counted(after) && Ops(mine + [entry]) + Pending(after.phase) == Ops(mine) + Pending(client.phase)
  {
    assert Ops(mine + [entry]) == Ops(mine) + [entry.op];
  }

  lemma DoneOrderly<K>(client: Client<K>, mine: seq<Entry>, entry: Entry)
    requires client.phase.Inside? && client.session.Some? && client.phase.op == entry.op && Orderly(client, mine)
    ensures Orderly(client.(phase := AfterAnswer(AnswerTo(entry.op, entry.outcome))), mine + [entry])
  {
    var after := client.(phase := AfterAnswer(AnswerTo(entry.op, entry.outcome)));
    DoneCounts(client, mine, entry);
    forall future ensures Settles(after, mine + [entry], future) {
      DoneSettles(client, mine, entry, future);
    }
  }

  ghost predicate AllOrderly<S, K>(srv: Server<S, K>) {
    && (forall i | 0 <= i < |srv.log| :: srv.log[i].client < |srv.clients|)
    && (forall c | 0 <= c < |srv.clients| :: Orderly(srv.clients[c], ByClient(srv.log, c)))
  }

  lemma {:induction false} NothingYet(log: seq<Entry>, c: nat)
    requires forall i | 0 <= i < |log| :: log[i].client < c
    ensures ByClient(log, c) == []
  {
    if log != [] {
      NothingYet(log[..|log| - 1], c);
    }
  }

  lemma OneClientChanges<S, K>(srv: Server<S, K>, srv': Server<S, K>, c: nat)
    requires AllOrderly(srv) && c < |srv.clients| == |srv'.clients| && srv'.log == srv.log
    requires srv'.clients == srv.clients[c := srv'.clients[c]] && Orderly(srv'.clients[c], ByClient(srv.log, c))
    ensures AllOrderly(srv')
  {
  }

  lemma OneClientLogs<S, K>(srv: Server<S, K>, srv': Server<S, K>, c: nat, entry: Entry)
    requires AllOrderly(srv) && c < |srv.clients| == |srv'.clients|
    requires srv'.log == srv.log + [entry] && entry.client == c
    requires srv'.clients == srv.clients[c := srv'.clients[c]]
    requires Orderly(srv'.clients[c], ByClient(srv.log, c) + [entry])
    ensures AllOrderly(srv')
  {
    LogAppend(srv.log, entry);
  }

  // A connection that asks for its session has not been sent anything yet.
  lemma AcceptedOrderly<K>(client: Client<K>, mine: seq<Entry>, after: Client<K>)
    requires client.phase.Accepted? && Orderly(client, mine) && client.answered == [] && client.unread == client.sent
    requires client.(session := after.session, phase := after.phase) == after
    requires after.phase == if after.session.Some? then Reading else Ended
    ensures Orderly(after, mine)
  {
    forall future ensures Settles(after, mine, future) {
      assert Settles(client, mine, future);
    }
  }

  lemma SupplyOrderly<S, K>(cfg: Config<S, K>, srv: Server<S, K>, c: nat)
    requires Structure(cfg, srv) && AllOrderly(srv) && c < |srv.clients| && srv.clients[c].phase.Accepted?
    ensures AllOrderly(SupplyStep(cfg, srv, c))
  {
    var srv' := SupplyStep(cfg, srv, c);
    assert ClientShape(srv.clients[c], |srv.sessions|);
    AcceptedOrderly(srv.clients[c], ByClient(srv.log, c), srv'.clients[c]);
    OneClientChanges(srv, srv', c);
  }

  lemma CardOrderly<S, K>(cfg: Config<S, K>, srv: Server<S, K>, c: nat, j: nat, op: Op, k: K)
    requires AllOrderly(srv) && c < |srv.clients| && j < |srv.sessions|
    requires srv.clients[c].phase == Inside(op, k) && srv.clients[c].session.Some?
    ensures AllOrderly(CardStep(cfg, srv, c, j, op, k))
  {
    var srv', mine := CardStep(cfg, srv, c, j, op, k), ByClient(srv.log, c);
    match cfg.card.step(srv.sessions[j].sim, k)
    case More(_, k') =>
      InsideOrderly(srv.clients[c], mine, op, k');
      OneClientChanges(srv, srv', c);
    case Done(_, outcome) =>
      LogAppend(srv.log, Entry(c, j, op, outcome));
      DoneOrderly(srv.clients[c], mine, Entry(c, j, op, outcome));
      OneClientLogs(srv, srv', c, Entry(c, j, op, outcome));
  }

  lemma TickOrderly<S, K>(cfg: Config<S, K>, srv: Server<S, K>, c: nat)
    requires Structure(cfg, srv) && AllOrderly(srv) && c < |srv.clients| && TickStep(cfg, srv, c).Some?
    ensures AllOrderly(TickStep(cfg, srv, c).value)
  {
    var client, mine := srv.clients[c], ByClient(srv.log, c);
    match client.phase
    case Accepted => SupplyOrderly(cfg, srv, c);
    case Reading => ReadOrderly(client, mine);
    case Waiting(op) => InsideOrderly(client, mine, op, cfg.card.begin(op));
    case Inside(op, k) => CardOrderly(cfg, srv, c, client.session.value, op, k);
    case Replying(_) => ReplyOrderly(client, mine);
    case _ =>
  }

  lemma AcceptOrderly<S, K>(cfg: Config<S, K>, srv: Server<S, K>, stream: Bytes)
    requires AllOrderly(srv)
    ensures AllOrderly(Next(cfg, srv, Accept(stream)).value)
  {
    var c, client := |srv.clients|, Next(cfg, srv, Accept(stream)).value.clients[|srv.clients|];
    NothingYet(srv.log, c);
    forall future ensures Settles(client, [], future) {
      assert [] + future == future;
    }
    assert Ops([]) + Pending(client.phase) + CardOps(stream) == CardOps(stream);
  }

  lemma StepKeepsOrderly<S, K>(cfg: Config<S, K>, srv: Server<S, K>, event: Event)
    requires Structure(cfg, srv) && AllOrderly(srv) && Next(cfg, srv, event).Some?
    ensures AllOrderly(Next(cfg, srv, event).value)
  {
    match event
    case Accept(stream) => AcceptOrderly(cfg, srv, stream);
    case Tick(c) => TickOrderly(cfg, srv, c);
    case Break(c, kept) => BreakOrderly(srv.clients[c], ByClient(srv.log, c), kept);
  }

  lemma {:induction false} ReachableOrderly<S, K>(cfg: Config<S, K>, events: seq<Event>)
    requires Run(cfg, events).Some?
    ensures Structure(cfg, Run(cfg, events).value) && AllOrderly(Run(cfg, events).value)
  {
    if events != [] {
      var before := events[..|events| - 1];
      ReachableOrderly(cfg, before);
      StepKeepsStructure(cfg, Run(cfg, before).value, events[|events| - 1]);
      StepKeepsOrderly(cfg, Run(cfg, before).value, events[|events| - 1]);
    }
  }

  // In either scope: a connection's operations appear in the log in the order of its frames, it
  // is answered with exactly what the log says about them, one reply per frame taken, and what
  // it can decode from its socket is that list of replies and nothing else. When its thread has
  // ended by itself, nothing more is owed, whatever the log may come to say.
  lemma RepliesFollowTheLog<S, K>(cfg: Config<S, K>, events: seq<Event>, c: nat)
    requires Run(cfg, events).Some? && c < |Run(cfg, events).value.clients|
    ensures var srv := Run(cfg, events).value;
            var client, mine := srv.clients[c], ByClient(srv.log, c);
            && Ops(mine) <= CardOps(client.sent)
            && client.answered <= Told(client.sent, mine)
            && Counted(client)
            && ReadAll(client.written).payloads == client.answered
            && (client.phase.Reading? && !NextFrame(client.unread).Frame? ==>
                  client.answered == Told(client.sent, mine) && Ops(mine) == CardOps(client.sent))
            && (client.phase.Ended? && client.session.Some? ==>
                  forall future :: client.answered == Told(client.sent, mine + future))
  {
    ReachableOrderly(cfg, events);
    var srv := Run(cfg, events).value;
    var client, mine := srv.clients[c], ByClient(srv.log, c);
    assert Settles(client, mine, []);
    assert mine + [] == mine;
    if client.phase.Ended? && client.session.Some? {
      forall future ensures client.answered == Told(client.sent, mine + future) {
        assert Settles(client, mine, future);
      }
    }
    WrittenIsRead(client, |srv.sessions|);
  }

  lemma WrittenIsRead<K>(client: Client<K>, sessions: nat)
    requires ClientShape(client, sessions)
    ensures ReadAll(client.written).payloads == client.answered
  {
    var torn := if client.phase.Broken? then Encode(client.phase.due)[..client.phase.kept] else [];
    if client.phase.Broken? {
      TornFrame(client.phase.due, client.phase.kept);
    }
    WrittenFramesAreRead(client.answered, torn);
  }
}
