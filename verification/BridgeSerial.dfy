/**
 Serialization: whatever the interleaving, each card behaves as if the completed operations in
 the log had run one after the other, and each connection is told exactly what the log says
 about its own operations, in its own order.
 */
module BridgeSerial {
  import opened Wrappers
  import opened CardMachine
  import opened Bridge
  import opened BridgeStructure

  function BySession(log: seq<Entry>, j: nat): seq<Entry> {
    if log == [] then []
    else
      var earlier, last := BySession(log[..|log| - 1], j), log[|log| - 1];
      if last.session == j then earlier + [last] else earlier
  }

  function ByClient(log: seq<Entry>, c: nat): seq<Entry> {
    if log == [] then []
    else
      var earlier, last := ByClient(log[..|log| - 1], c), log[|log| - 1];
      if last.client == c then earlier + [last] else earlier
  }

  function Ops(log: seq<Entry>): seq<Op> {
    seq(|log|, i requires 0 <= i < |log| => log[i].op)
  }

  /** The sequential card: one whole operation after the other, each with the outcome logged. */
  ghost function Replay<S, K>(card: Card<S, K>, s: S, log: seq<Entry>): Option<S> {
    if log == [] then Some(s)
    else
      var before, last := Replay(card, s, log[..|log| - 1]), log[|log| - 1];
      if before.None? then None
      else
        match Whole(card, before.value, last.op)
        case Some((after, outcome)) => if outcome == last.outcome then Some(after) else None
        case None => None
  }

  lemma LogAppend(log: seq<Entry>, entry: Entry)
    ensures forall j: nat :: BySession(log + [entry], j)
                          == BySession(log, j) + if entry.session == j then [entry] else []
    ensures forall c: nat :: ByClient(log + [entry], c)
                          == ByClient(log, c) + if entry.client == c then [entry] else []
  {
    assert (log + [entry])[..|log|] == log;
  }

  // The card of session j stands where the sequential card stands after its log, or is inside
  // one more operation that will end as that operation ends on the sequential card.
  ghost predicate SessionSerial<S, K>(cfg: Config<S, K>, srv: Server<S, K>, j: nat)
    requires j < |srv.sessions|
  {
    var session := srv.sessions[j];
    cfg.provider(session.born).Some? &&
    match Replay(cfg.card, cfg.provider(session.born).value, BySession(srv.log, j))
    case None => false
    case Some(s) =>
      if session.holder.None? then session.sim == s
      else
        var c := session.holder.value;
        && c < |srv.clients| && srv.clients[c].phase.Inside?
        && var (op, k) := (srv.clients[c].phase.op, srv.clients[c].phase.local);
           Finish(cfg.card, session.sim, k) == Whole(cfg.card, s, op)
  }

  ghost predicate Serial<S, K>(cfg: Config<S, K>, srv: Server<S, K>) {
    && (forall i | 0 <= i < |srv.log| :: srv.log[i].session < |srv.sessions| && srv.log[i].client < |srv.clients|)
    && (forall j | 0 <= j < |srv.sessions| :: SessionSerial(cfg, srv, j))
  }

  lemma {:induction false} NoEntries(log: seq<Entry>, j: nat)
    requires forall i | 0 <= i < |log| :: log[i].session < j
    ensures BySession(log, j) == []
  {
    if log != [] {
      NoEntries(log[..|log| - 1], j);
    }
  }

  lemma SupplyKeepsSerial<S, K>(cfg: Config<S, K>, srv: Server<S, K>, c: nat)
    requires Structure(cfg, srv) && Serial(cfg, srv) && c < |srv.clients| && srv.clients[c].phase.Accepted?
    ensures Serial(cfg, SupplyStep(cfg, srv, c))
  {
    var srv' := SupplyStep(cfg, srv, c);
    forall j | 0 <= j < |srv'.sessions| ensures SessionSerial(cfg, srv', j) {
      if j < |srv.sessions| {
        assert SessionSerial(cfg, srv, j);
      } else {
        NoEntries(srv.log, j);
      }
    }
  }

  lemma EnterKeepsSerial<S, K>(cfg: Config<S, K>, srv: Server<S, K>, c: nat, j: nat, op: Op)
    requires Structure(cfg, srv) && Serial(cfg, srv) && c < |srv.clients| && j < |srv.sessions|
    requires srv.clients[c].phase == Waiting(op) && srv.sessions[j].holder == None
    ensures Serial(cfg, EnterStep(cfg, srv, c, j, op))
  {
    var srv' := EnterStep(cfg, srv, c, j, op);
    forall i | 0 <= i < |srv'.sessions| ensures SessionSerial(cfg, srv', i) {
      assert SessionSerial(cfg, srv, i);
    }
  }

  lemma MoreKeepsSerial<S, K>(cfg: Config<S, K>, srv: Server<S, K>, c: nat, j: nat, op: Op, k: K)
    requires Structure(cfg, srv) && Serial(cfg, srv) && c < |srv.clients| && j < |srv.sessions|
    requires srv.clients[c].phase == Inside(op, k) && srv.clients[c].session == Some(j)
    requires cfg.card.step(srv.sessions[j].sim, k).More?
    ensures Serial(cfg, CardStep(cfg, srv, c, j, op, k))
  {
    var srv' := CardStep(cfg, srv, c, j, op, k);
    assert IsInside(srv, c, j);
    FinishStep(cfg.card, srv.sessions[j].sim, k);
    forall i | 0 <= i < |srv'.sessions| ensures SessionSerial(cfg, srv', i) {
      assert SessionSerial(cfg, srv, i);
    }
  }

  lemma DoneKeepsSerial<S, K>(cfg: Config<S, K>, srv: Server<S, K>, c: nat, j: nat, op: Op, k: K)
    requires Structure(cfg, srv) && Serial(cfg, srv) && c < |srv.clients| && j < |srv.sessions|
    requires srv.clients[c].phase == Inside(op, k) && srv.clients[c].session == Some(j)
    requires cfg.card.step(srv.sessions[j].sim, k).Done?
    ensures Serial(cfg, CardStep(cfg, srv, c, j, op, k))
  {
    var srv' := CardStep(cfg, srv, c, j, op, k);
    DoneIsLogged(cfg, srv, c, j, op, k);
    LogAppend(srv.log, Entry(c, j, op, cfg.card.step(srv.sessions[j].sim, k).outcome));
    forall i | 0 <= i < |srv'.sessions| && i != j ensures SessionSerial(cfg, srv', i) {
      assert SessionSerial(cfg, srv, i);
      if srv.sessions[i].holder.Some? {
        assert IsInside(srv, srv.sessions[i].holder.value, i);
      }
      OtherSessionKept(cfg, srv, srv', i);
    }
  }

  lemma OtherSessionKept<S, K>(cfg: Config<S, K>, srv: Server<S, K>, srv': Server<S, K>, i: nat)
    requires i < |srv.sessions| && i < |srv'.sessions| && SessionSerial(cfg, srv, i)
    requires srv'.sessions[i] == srv.sessions[i] && BySession(srv'.log, i) == BySession(srv.log, i)
    requires srv.sessions[i].holder.Some? ==>
               var c := srv.sessions[i].holder.value; c < |srv'.clients| && srv'.clients[c] == srv.clients[c]
    ensures SessionSerial(cfg, srv', i)
  {
  }

  // The operation that ends is the one that the sequential card does next.
  lemma DoneIsLogged<S, K>(cfg: Config<S, K>, srv: Server<S, K>, c: nat, j: nat, op: Op, k: K)
    requires MonitorsHeld(srv) && c < |srv.clients| && j < |srv.sessions| && SessionSerial(cfg, srv, j)
    requires srv.clients[c].phase == Inside(op, k) && srv.clients[c].session == Some(j)
    requires cfg.card.step(srv.sessions[j].sim, k).Done?
    ensures SessionSerial(cfg, CardStep(cfg, srv, c, j, op, k), j)
  {
    assert IsInside(srv, c, j);
    FinishStep(cfg.card, srv.sessions[j].sim, k);
    var entry := Entry(c, j, op, cfg.card.step(srv.sessions[j].sim, k).outcome);
    LogAppend(srv.log, entry);
    var mine := BySession(srv.log, j);
    assert (mine + [entry])[..|mine|] == mine;
  }

  // Steps that leave sessions, log and every thread inside a monitor alone.
  lemma LocalKeepsSerial<S, K>(cfg: Config<S, K>, srv: Server<S, K>, c: nat, client: Client<K>)
    requires Structure(cfg, srv) && Serial(cfg, srv) && c < |srv.clients| && !srv.clients[c].phase.Inside?
    ensures Serial(cfg, WithClient(srv, c, client))
  {
    forall j | 0 <= j < |srv.sessions| ensures SessionSerial(cfg, WithClient(srv, c, client), j) {
      assert SessionSerial(cfg, srv, j);
    }
  }

  lemma AcceptKeepsSerial<S, K>(cfg: Config<S, K>, srv: Server<S, K>, stream: Bytes)
    requires Structure(cfg, srv) && Serial(cfg, srv)
    ensures Serial(cfg, Next(cfg, srv, Accept(stream)).value)
  {
    var srv' := Next(cfg, srv, Accept(stream)).value;
    forall j | 0 <= j < |srv'.sessions| ensures SessionSerial(cfg, srv', j) {
      assert SessionSerial(cfg, srv, j);
    }
  }

  lemma StepKeepsSerial<S, K>(cfg: Config<S, K>, srv: Server<S, K>, event: Event)
    requires Structure(cfg, srv) && Serial(cfg, srv) && Next(cfg, srv, event).Some?
    ensures Serial(cfg, Next(cfg, srv, event).value)
  {
    match event
    case Accept(stream) => AcceptKeepsSerial(cfg, srv, stream);
    case Break(c, kept) => LocalKeepsSerial(cfg, srv, c, BreakStep(srv.clients[c], kept).value);
    case Tick(c) =>
      var client := srv.clients[c];
      match client.phase
      case Accepted => SupplyKeepsSerial(cfg, srv, c);
      case Reading => LocalKeepsSerial(cfg, srv, c, ReadStep(client));
      case Waiting(op) => EnterKeepsSerial(cfg, srv, c, client.session.value, op);
      case Inside(op, k) =>
        if cfg.card.step(srv.sessions[client.session.value].sim, k).More? {
          MoreKeepsSerial(cfg, srv, c, client.session.value, op, k);
        } else {
          DoneKeepsSerial(cfg, srv, c, client.session.value, op, k);
        }
      case Replying(_) => LocalKeepsSerial(cfg, srv, c, ReplyStep(client));
      case _ =>
  }

  lemma {:induction false} ReachableSerial<S, K>(cfg: Config<S, K>, events: seq<Event>)
    requires Run(cfg, events).Some?
    ensures Structure(cfg, Run(cfg, events).value) && Serial(cfg, Run(cfg, events).value)
  {
    if events != [] {
      var before := events[..|events| - 1];
      ReachableSerial(cfg, before);
      StepKeepsStructure(cfg, Run(cfg, before).value, events[|events| - 1]);
      StepKeepsSerial(cfg, Run(cfg, before).value, events[|events| - 1]);
    }
  }

  // Shared scope: one global log of whole operations accounts for the card's state, however many
  // connections interleave; the operation in progress, if any, will complete as on that card.
  lemma SharedScopeSerializes<S, K>(cfg: Config<S, K>, events: seq<Event>)
    requires Run(cfg, events).Some? && cfg.scope == Shared
    ensures var srv := Run(cfg, events).value;
            && cfg.provider(0).Some? && |srv.sessions| == 1
            && var card := Replay(cfg.card, cfg.provider(0).value, srv.log);
               && card.Some?
               && match srv.sessions[0].holder
                  case None => srv.sessions[0].sim == card.value
                  case Some(c) =>
                    && c < |srv.clients| && srv.clients[c].phase.Inside?
                    && Finish(cfg.card, srv.sessions[0].sim, srv.clients[c].phase.local)
                       == Whole(cfg.card, card.value, srv.clients[c].phase.op)
  {
    ReachableSerial(cfg, events);
    var srv := Run(cfg, events).value;
    assert SessionSerial(cfg, srv, 0);
    AllEntries(srv.log);
  }

  lemma {:induction false} AllEntries(log: seq<Entry>)
    requires forall i | 0 <= i < |log| :: log[i].session == 0
    ensures BySession(log, 0) == log
  {
    if log != [] {
      AllEntries(log[..|log| - 1]);
      assert log == log[..|log| - 1] + [log[|log| - 1]];
    }
  }
}
