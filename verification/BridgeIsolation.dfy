/**
 Connection scope: a connection is served exactly as if it were alone with a fresh card, so no
 other connection, whatever it sends, can influence a byte of what it receives.
 */
module BridgeIsolation {
  import opened Wrappers
  import opened FrameCodec
  import opened CardMachine
  import opened Replies
  import opened Bridge
  import opened BridgeStructure

  /** The replies to `stream` of one handler alone with a card in state `s`. */
  ghost function Alone<S, K>(card: Card<S, K>, s: S, stream: Bytes): (replies: seq<Bytes>)
    ensures AllFramable(replies)
    decreases |stream|, 0
  {
    match NextFrame(stream)
    case Frame(payload, rest) =>
      (match Decode(payload)
       case Immediate(answer) => AloneAnswer(card, s, answer, rest)
       case CardCall(op) => AloneAfter(card, Whole(card, s, op), op, rest))
    case _ => []
  }

  // An operation that never returns leaves the handler waiting for ever.
  ghost function AloneAfter<S, K>(card: Card<S, K>, result: Option<(S, Outcome)>, op: Op, rest: Bytes)
    : (replies: seq<Bytes>)
    ensures AllFramable(replies)
    decreases |rest|, 2
  {
    match result
    case None => []
    case Some((s, outcome)) => AloneAnswer(card, s, AnswerTo(op, outcome), rest)
  }

  ghost function AloneAnswer<S, K>(card: Card<S, K>, s: S, answer: Answer, rest: Bytes): (replies: seq<Bytes>)
    requires answer.Send? ==> Framable(answer.payload)
    ensures AllFramable(replies)
    decreases |rest|, 1
  {
    match answer
    case Send(payload) => [payload] + Alone(card, s, rest)
    case HangUp => []
  }

  ghost function Due<S, K>(card: Card<S, K>, s: S, client: Client<K>): seq<Bytes> {
    match client.phase
    case Waiting(op) => AloneAfter(card, Whole(card, s, op), op, client.unread)
    case Inside(op, k) => AloneAfter(card, Finish(card, s, k), op, client.unread)
    case Replying(reply) => [reply] + Alone(card, s, client.unread)
    case _ => Alone(card, s, client.unread)
  }

  // Answered so far plus still due is what the connection gets alone from the card state `newCard`.
  ghost predicate Undisturbed<S, K>(card: Card<S, K>, newCard: S, s: S, client: Client<K>) {
    match client.phase
    case Ended => client.answered == Alone(card, newCard, client.sent)
    case Lost => client.answered <= Alone(card, newCard, client.sent)
    case Broken(due, _) => client.answered + [due] <= Alone(card, newCard, client.sent)
    case _ => Alone(card, newCard, client.sent) == client.answered + Due(card, s, client)
  }

  ghost predicate AllUndisturbed<S, K>(cfg: Config<S, K>, srv: Server<S, K>)
    requires CardsDistinct(cfg, srv)
  {
    && (srv.warm ==> cfg.provider(0).Some? && srv.sessions[0].sim == cfg.provider(0).value)
    && forall c | 0 <= c < |srv.clients| && srv.clients[c].session.Some? :: ClientUndisturbed(cfg, srv, c)
  }

  ghost predicate ClientUndisturbed<S, K>(cfg: Config<S, K>, srv: Server<S, K>, c: nat)
    requires CardsDistinct(cfg, srv) && c < |srv.clients| && srv.clients[c].session.Some?
  {
    && srv.clients[c].session.value < |srv.sessions|
    && var session := srv.sessions[srv.clients[c].session.value];
       Undisturbed(cfg.card, cfg.provider(session.born).value, session.sim, srv.clients[c])
  }

  lemma ReadUndisturbed<S, K>(card: Card<S, K>, newCard: S, s: S, client: Client<K>)
    requires client.phase.Reading? && Undisturbed(card, newCard, s, client)
    ensures Undisturbed(card, newCard, s, ReadStep(client))
  {
    var after := ReadStep(client);
    if after.phase.Replying? {
      assert AloneAnswer(card, s, Send(after.phase.reply), after.unread) == Due(card, s, after);
    }
  }

  lemma ReplyUndisturbed<S, K>(card: Card<S, K>, newCard: S, s: S, client: Client<K>)
    requires client.phase.Replying? && Framable(client.phase.reply) && Undisturbed(card, newCard, s, client)
    ensures Undisturbed(card, newCard, s, ReplyStep(client))
  {
    Associative(client.answered, [client.phase.reply], Alone(card, s, client.unread));
  }

  lemma BreakUndisturbed<S, K>(card: Card<S, K>, newCard: S, s: S, client: Client<K>, kept: nat)
    requires BreakStep(client, kept).Some? && Undisturbed(card, newCard, s, client)
    ensures Undisturbed(card, newCard, s, BreakStep(client, kept).value)
  {
    if client.phase.Replying? {
      Associative(client.answered, [client.phase.reply], Alone(card, s, client.unread));
    }
  }

  lemma InsideUndisturbed<S, K>(card: Card<S, K>, newCard: S, s: S, client: Client<K>, op: Op, k: K)
    requires client.phase == Inside(op, k) && Undisturbed(card, newCard, s, client)
    ensures match card.step(s, k)
            case More(s', k') => Undisturbed(card, newCard, s', client.(phase := Inside(op, k')))
            case Done(s', outcome) =>
              Undisturbed(card, newCard, s', client.(phase := AfterAnswer(AnswerTo(op, outcome))))
  {
    FinishStep(card, s, k);
    match card.step(s, k)
    case More(_, _) =>
    case Done(s', outcome) =>
      var answer := AnswerTo(op, outcome);
      assert Alone(card, newCard, client.sent) == client.answered + AloneAnswer(card, s', answer, client.unread);
      assert client.answered + [] == client.answered;
  }

  lemma CardUndisturbed<S, K>(cfg: Config<S, K>, srv: Server<S, K>, c: nat, j: nat, op: Op, k: K)
    requires cfg.scope == Connection && Structure(cfg, srv) && AllUndisturbed(cfg, srv)
    requires c < |srv.clients| && j < |srv.sessions|
    requires srv.clients[c].phase == Inside(op, k) && srv.clients[c].session == Some(j)
    requires Structure(cfg, CardStep(cfg, srv, c, j, op, k))
    ensures AllUndisturbed(cfg, CardStep(cfg, srv, c, j, op, k))
  {
    var srv' := CardStep(cfg, srv, c, j, op, k);
    assert ClientUndisturbed(cfg, srv, c);
    var session := srv.sessions[j];
    InsideUndisturbed(cfg.card, cfg.provider(session.born).value, session.sim, srv.clients[c], op, k);
    assert ClientUndisturbed(cfg, srv', c);
    forall d | 0 <= d < |srv'.clients| && d != c && srv'.clients[d].session.Some?
      ensures ClientUndisturbed(cfg, srv', d)
    {
      assert ClientUndisturbed(cfg, srv, d);
    }
  }

  // The session handed out is fresh: its card is as its create() call returned it.
  lemma SuppliedIsFresh<S, K>(cfg: Config<S, K>, srv: Server<S, K>, c: nat)
    requires cfg.scope == Connection && CardsDistinct(cfg, srv) && c < |srv.clients|
    requires srv.warm ==> srv.sessions[0].sim == cfg.provider(0).value
    requires CardsDistinct(cfg, SupplyStep(cfg, srv, c))
    ensures var srv' := SupplyStep(cfg, srv, c);
            && srv.sessions <= srv'.sessions && (srv'.warm ==> srv.warm)
            && (srv'.clients[c].session.Some? ==>
                  && srv'.clients[c].session.value < |srv'.sessions|
                  && var session := srv'.sessions[srv'.clients[c].session.value];
                     session.sim == cfg.provider(session.born).value)
  {
  }

  lemma SupplyUndisturbed<S, K>(cfg: Config<S, K>, srv: Server<S, K>, c: nat)
    requires cfg.scope == Connection && Structure(cfg, srv) && AllUndisturbed(cfg, srv)
    requires c < |srv.clients| && srv.clients[c].phase.Accepted?
    requires Structure(cfg, SupplyStep(cfg, srv, c))
    ensures AllUndisturbed(cfg, SupplyStep(cfg, srv, c))
  {
    var srv' := SupplyStep(cfg, srv, c);
    SuppliedIsFresh(cfg, srv, c);
    assert ClientShape(srv.clients[c], |srv.sessions|);
    if srv'.clients[c].session.Some? {
      var newCard := srv'.sessions[srv'.clients[c].session.value].sim;
      assert [] + Alone(cfg.card, newCard, srv'.clients[c].sent) == Alone(cfg.card, newCard, srv'.clients[c].sent);
      assert ClientUndisturbed(cfg, srv', c);
    }
    forall d | 0 <= d < |srv'.clients| && d != c && srv'.clients[d].session.Some?
      ensures ClientUndisturbed(cfg, srv', d)
    {
      assert ClientUndisturbed(cfg, srv, d);
    }
  }

  lemma LocalUndisturbed<S, K>(cfg: Config<S, K>, srv: Server<S, K>, c: nat, client: Client<K>)
    requires Structure(cfg, srv) && AllUndisturbed(cfg, srv) && c < |srv.clients|
    requires client.session == srv.clients[c].session
    requires client.session.Some? ==> ClientUndisturbed(cfg, WithClient(srv, c, client), c)
    ensures AllUndisturbed(cfg, WithClient(srv, c, client))
  {
    var srv' := WithClient(srv, c, client);
    forall d | 0 <= d < |srv'.clients| && d != c && srv'.clients[d].session.Some?
      ensures ClientUndisturbed(cfg, srv', d)
    {
      assert ClientUndisturbed(cfg, srv, d);
    }
  }

  lemma EnterUndisturbed<S, K>(cfg: Config<S, K>, srv: Server<S, K>, c: nat, j: nat, op: Op)
    requires Structure(cfg, srv) && AllUndisturbed(cfg, srv) && c < |srv.clients| && j < |srv.sessions|
    requires srv.clients[c].phase == Waiting(op) && srv.clients[c].session == Some(j)
    requires Structure(cfg, EnterStep(cfg, srv, c, j, op))
    ensures AllUndisturbed(cfg, EnterStep(cfg, srv, c, j, op))
  {
    var srv' := EnterStep(cfg, srv, c, j, op);
    forall d | 0 <= d < |srv'.clients| && srv'.clients[d].session.Some?
      ensures ClientUndisturbed(cfg, srv', d)
    {
      assert ClientUndisturbed(cfg, srv, d);
    }
  }

  lemma TickUndisturbed<S, K>(cfg: Config<S, K>, srv: Server<S, K>, c: nat)
    requires cfg.scope == Connection && Structure(cfg, srv) && AllUndisturbed(cfg, srv)
    requires c < |srv.clients| && TickStep(cfg, srv, c).Some?
    requires Structure(cfg, TickStep(cfg, srv, c).value)
    ensures AllUndisturbed(cfg, TickStep(cfg, srv, c).value)
  {
    var client := srv.clients[c];
    if client.phase.Accepted? {
      SupplyUndisturbed(cfg, srv, c);
    } else {
      var session := srv.sessions[client.session.value];
      var newCard := cfg.provider(session.born).value;
      assert ClientUndisturbed(cfg, srv, c);
      match client.phase
      case Reading =>
        ReadUndisturbed(cfg.card, newCard, session.sim, client);
        LocalUndisturbed(cfg, srv, c, ReadStep(client));
      case Waiting(op) => EnterUndisturbed(cfg, srv, c, client.session.value, op);
      case Inside(op, k) => CardUndisturbed(cfg, srv, c, client.session.value, op, k);
      case Replying(_) =>
        ReplyUndisturbed(cfg.card, newCard, session.sim, client);
        LocalUndisturbed(cfg, srv, c, ReplyStep(client));
      case _ =>
    }
  }

  lemma BreakAllUndisturbed<S, K>(cfg: Config<S, K>, srv: Server<S, K>, c: nat, kept: nat)
    requires Structure(cfg, srv) && AllUndisturbed(cfg, srv) && c < |srv.clients|
    requires BreakStep(srv.clients[c], kept).Some?
    ensures AllUndisturbed(cfg, WithClient(srv, c, BreakStep(srv.clients[c], kept).value))
  {
    if srv.clients[c].session.Some? {
      assert ClientUndisturbed(cfg, srv, c);
      var session := srv.sessions[srv.clients[c].session.value];
      BreakUndisturbed(cfg.card, cfg.provider(session.born).value, session.sim, srv.clients[c], kept);
    }
    LocalUndisturbed(cfg, srv, c, BreakStep(srv.clients[c], kept).value);
  }

  lemma {:induction false} ReachableUndisturbed<S, K>(cfg: Config<S, K>, events: seq<Event>)
    requires Run(cfg, events).Some? && cfg.scope == Connection
    ensures Structure(cfg, Run(cfg, events).value) && AllUndisturbed(cfg, Run(cfg, events).value)
  {
    if events != [] {
      var before, event := events[..|events| - 1], events[|events| - 1];
      ReachableUndisturbed(cfg, before);
      var srv := Run(cfg, before).value;
      StepKeepsStructure(cfg, srv, event);
      match event
      case Accept(_) =>
        forall c | 0 <= c < |srv.clients| && srv.clients[c].session.Some?
          ensures ClientUndisturbed(cfg, Next(cfg, srv, event).value, c)
        {
          assert ClientUndisturbed(cfg, srv, c);
        }
      case Tick(c) => TickUndisturbed(cfg, srv, c);
      case Break(c, kept) => BreakAllUndisturbed(cfg, srv, c, kept);
    }
  }

  lemma EncodeAllPrefix(left: seq<Bytes>, all: seq<Bytes>)
    requires AllFramable(all) && left <= all
    ensures AllFramable(left) && EncodeAll(left) <= EncodeAll(all)
  {
    EncodeAllConcat(left, all[|left|..]);
    assert left + all[|left|..] == all;
  }

  lemma WrittenWithin<K>(client: Client<K>, sessions: nat, all: seq<Bytes>)
    requires ClientShape(client, sessions) && AllFramable(all)
    requires (if client.phase.Broken? then client.answered + [client.phase.due] else client.answered) <= all
    ensures client.written <= EncodeAll(all)
    ensures client.answered == all && !client.phase.Broken? ==> client.written == EncodeAll(all)
  {
    if client.phase.Broken? {
      var whole := Encode(client.phase.due);
      EncodeAllPrefix(client.answered + [client.phase.due], all);
      EncodeAllConcat(client.answered, [client.phase.due]);
      assert EncodeAll([client.phase.due]) == whole + EncodeAll([]) == whole;
      assert client.written <= EncodeAll(client.answered) + whole;
    } else {
      EncodeAllPrefix(client.answered, all);
    }
  }

  // The bytes a connection has been sent are a prefix of what it is sent alone on a fresh card, and
  // all of it when no frame is left or the thread has ended by itself.
  lemma ServedAsIfAlone<S, K>(cfg: Config<S, K>, events: seq<Event>, c: nat)
    requires Run(cfg, events).Some? && cfg.scope == Connection
    requires var srv := Run(cfg, events).value; c < |srv.clients| && srv.clients[c].session.Some?
    ensures var srv := Run(cfg, events).value;
            var client := srv.clients[c];
            && client.session.value < |srv.sessions|
            && var card := cfg.provider(srv.sessions[client.session.value].born);
               && card.Some?
               && client.written <= EncodeAll(Alone(cfg.card, card.value, client.sent))
               && (client.phase.Ended? || (client.phase.Reading? && !NextFrame(client.unread).Frame?) ==>
                     client.written == EncodeAll(Alone(cfg.card, card.value, client.sent)))
  {
    ReachableUndisturbed(cfg, events);
    var srv := Run(cfg, events).value;
    assert ClientUndisturbed(cfg, srv, c);
    var client := srv.clients[c];
    WrittenWithin(client, |srv.sessions|,
      Alone(cfg.card, cfg.provider(srv.sessions[client.session.value].born).value, client.sent));
  }

  // Non-interference. Take any two runs, with any other connections doing anything at all,
  // RESET frames included: two connections that send the same bytes to cards that start in the
  // same state receive the same bytes, up to how far each has got.
  lemma OthersDoNotInterfere<S, K>(
      cfg: Config<S, K>, events: seq<Event>, c: nat, cfg': Config<S, K>, events': seq<Event>, c': nat)
    requires cfg.card == cfg'.card && cfg.scope == Connection == cfg'.scope
    requires Run(cfg, events).Some? && Run(cfg', events').Some?
    requires var srv := Run(cfg, events).value; c < |srv.clients| && srv.clients[c].session.Some?
    requires var srv' := Run(cfg', events').value; c' < |srv'.clients| && srv'.clients[c'].session.Some?
    requires Run(cfg, events).value.clients[c].sent == Run(cfg', events').value.clients[c'].sent
    requires FreshCard(cfg, Run(cfg, events).value, c) == FreshCard(cfg', Run(cfg', events').value, c')
    ensures var written := Run(cfg, events).value.clients[c].written;
            var written' := Run(cfg', events').value.clients[c'].written;
            && (written <= written' || written' <= written)
            && (Run(cfg, events).value.clients[c].phase.Ended? && Run(cfg', events').value.clients[c'].phase.Ended?
                ==> written == written')
  {
    ServedAsIfAlone(cfg, events, c);
    ServedAsIfAlone(cfg', events', c');
  }

  /** The card state a connection's own create() call returned. */
  ghost function FreshCard<S, K>(cfg: Config<S, K>, srv: Server<S, K>, c: nat): Option<S>
    requires c < |srv.clients| && srv.clients[c].session.Some?
  {
    var j := srv.clients[c].session.value;
    if j < |srv.sessions| then cfg.provider(srv.sessions[j].born) else None
  }
}
