/** What every step of the bridge keeps: who owns which session, and who is inside which monitor. */
module BridgeStructure {
  import opened Wrappers
  import opened FrameCodec
  import opened CardMachine
  import opened Bridge

  ghost predicate ClientShape<K>(client: Client<K>, sessions: nat) {
    && (client.session.Some? ==> client.session.value < sessions)
    && (client.phase.Accepted? ==> client.session.None?)
    && (!client.phase.Accepted? && !client.phase.Ended? && !client.phase.Lost? ==> client.session.Some?)
    && (client.phase.Accepted? ==> client.answered == [] && client.unread == client.sent)
    && (client.phase.Replying? ==> Framable(client.phase.reply))
    && (client.phase.Broken? ==> Framable(client.phase.due) && client.phase.kept < |Encode(client.phase.due)|)
    && AllFramable(client.answered)
    && client.written == EncodeAll(client.answered)
                       + if client.phase.Broken? then Encode(client.phase.due)[..client.phase.kept] else []
  }

  ghost predicate IsInside<S, K>(srv: Server<S, K>, c: nat, j: nat) {
    c < |srv.clients| && srv.clients[c].session == Some(j) && srv.clients[c].phase.Inside?
  }

  // Mutual exclusion: the holder of a monitor is the one thread inside that session.
  ghost predicate MonitorsHeld<S, K>(srv: Server<S, K>) {
    && (forall j | 0 <= j < |srv.sessions| && srv.sessions[j].holder.Some? ::
          IsInside(srv, srv.sessions[j].holder.value, j))
    && (forall c: nat, j: nat | j < |srv.sessions| && IsInside(srv, c, j) :: srv.sessions[j].holder == Some(c))
  }

  // Every session wraps the card of its own create() call.
  ghost predicate CardsDistinct<S, K>(cfg: Config<S, K>, srv: Server<S, K>) {
    && |srv.sessions| >= 1 && srv.sessions[0].born == 0
    && (forall j | 0 <= j < |srv.sessions| ::
          srv.sessions[j].born < srv.created && cfg.provider(srv.sessions[j].born).Some?)
    && (forall i, j | 0 <= i < j < |srv.sessions| :: srv.sessions[i].born < srv.sessions[j].born)
  }

  ghost predicate Supplied<S, K>(cfg: Config<S, K>, srv: Server<S, K>) {
    match cfg.scope
    case Shared => |srv.sessions| == 1 && srv.created == 1 && !srv.warm
    case Connection =>
      && srv.created == (if srv.asked == 0 then 1 else srv.asked)
      && (srv.warm <==> srv.asked == 0)
      && (forall c, d | 0 <= c < d < |srv.clients| && srv.clients[c].session.Some? ::
            srv.clients[c].session != srv.clients[d].session)
      && (srv.warm ==> forall c | 0 <= c < |srv.clients| :: srv.clients[c].session.None?)
  }

  ghost predicate Structure<S, K>(cfg: Config<S, K>, srv: Server<S, K>) {
    && CardsDistinct(cfg, srv)
    && (forall c | 0 <= c < |srv.clients| :: ClientShape(srv.clients[c], |srv.sessions|))
    && Supplied(cfg, srv)
    && MonitorsHeld(srv)
  }

  // A step that neither enters nor leaves a monitor nor changes sessions.
  lemma LocalStep<S, K>(cfg: Config<S, K>, srv: Server<S, K>, c: nat, client: Client<K>)
    requires Structure(cfg, srv) && c < |srv.clients|
    requires client.session == srv.clients[c].session && ClientShape(client, |srv.sessions|)
    requires client.phase.Inside? == srv.clients[c].phase.Inside?
    ensures Structure(cfg, WithClient(srv, c, client))
  {
    var srv' := WithClient(srv, c, client);
    forall d: nat, j: nat ensures IsInside(srv', d, j) == IsInside(srv, d, j) {
    }
  }

  lemma ReplyShape<K>(client: Client<K>, sessions: nat)
    requires ClientShape(client, sessions) && client.phase.Replying?
    ensures ClientShape(ReplyStep(client), sessions)
  {
    EncodeAllConcat(client.answered, [client.phase.reply]);
    assert EncodeAll([client.phase.reply]) == Encode(client.phase.reply) + EncodeAll([]);
  }

  // The supplier touches no monitor and hands out a session that nobody has.
  lemma SupplyKeepsMonitors<S, K>(cfg: Config<S, K>, srv: Server<S, K>, c: nat)
    requires Structure(cfg, srv) && c < |srv.clients| && srv.clients[c].phase.Accepted?
    ensures MonitorsHeld(SupplyStep(cfg, srv, c))
  {
    var srv' := SupplyStep(cfg, srv, c);
    forall d: nat, j: nat ensures IsInside(srv', d, j) == IsInside(srv, d, j) {
    }
  }

  lemma SupplyIsSound<S, K>(cfg: Config<S, K>, srv: Server<S, K>, c: nat)
    requires Structure(cfg, srv) && c < |srv.clients| && srv.clients[c].phase.Accepted?
    ensures var srv' := SupplyStep(cfg, srv, c);
            && |srv'.sessions| >= |srv.sessions| && CardsDistinct(cfg, srv')
            && ClientShape(srv'.clients[c], |srv'.sessions|) && Supplied(cfg, srv')
  {
  }

  lemma SupplyKeeps<S, K>(cfg: Config<S, K>, srv: Server<S, K>, c: nat)
    requires Structure(cfg, srv) && c < |srv.clients| && srv.clients[c].phase.Accepted?
    ensures Structure(cfg, SupplyStep(cfg, srv, c))
  {
    SupplyKeepsMonitors(cfg, srv, c);
    SupplyIsSound(cfg, srv, c);
  }

  // A thread and its session take a step together: the monitor was free or the thread's own, and
  // is the thread's own afterwards exactly if it is then inside.
  ghost predicate JointStep<S, K>(srv: Server<S, K>, srv': Server<S, K>, c: nat, j: nat) {
    && c < |srv.clients| == |srv'.clients| && j < |srv.sessions| == |srv'.sessions|
    && srv'.clients == srv.clients[c := srv'.clients[c]] && srv'.sessions == srv.sessions[j := srv'.sessions[j]]
    && srv'.(clients := srv.clients, sessions := srv.sessions, log := srv.log) == srv
    && srv.clients[c].session == srv'.clients[c].session == Some(j)
    && srv.sessions[j].born == srv'.sessions[j].born
    && ClientShape(srv'.clients[c], |srv.sessions|)
    && srv.sessions[j].holder in {None, Some(c)}
    && srv'.sessions[j].holder == if srv'.clients[c].phase.Inside? then Some(c) else None
  }

  lemma JointStepKeepsMonitors<S, K>(srv: Server<S, K>, srv': Server<S, K>, c: nat, j: nat)
    requires MonitorsHeld(srv) && JointStep(srv, srv', c, j)
    ensures MonitorsHeld(srv')
  {
    forall d: nat, i: nat ensures d != c ==> IsInside(srv', d, i) == IsInside(srv, d, i) {
    }
  }

  lemma JointStepKeeps<S, K>(cfg: Config<S, K>, srv: Server<S, K>, srv': Server<S, K>, c: nat, j: nat)
    requires Structure(cfg, srv) && JointStep(srv, srv', c, j)
    ensures Structure(cfg, srv')
  {
    JointStepKeepsMonitors(srv, srv', c, j);
  }

  lemma EnterKeeps<S, K>(cfg: Config<S, K>, srv: Server<S, K>, c: nat, j: nat, op: Op)
    requires Structure(cfg, srv) && c < |srv.clients| && j < |srv.sessions|
    requires srv.clients[c].phase == Waiting(op) && srv.clients[c].session == Some(j)
    requires srv.sessions[j].holder == None
    ensures Structure(cfg, EnterStep(cfg, srv, c, j, op))
  {
    JointStepKeeps(cfg, srv, EnterStep(cfg, srv, c, j, op), c, j);
  }

  lemma CardIsJoint<S, K>(cfg: Config<S, K>, srv: Server<S, K>, c: nat, j: nat, op: Op, k: K)
    requires c < |srv.clients| && j < |srv.sessions| && ClientShape(srv.clients[c], |srv.sessions|)
    requires srv.clients[c].phase == Inside(op, k) && srv.clients[c].session == Some(j)
    requires srv.sessions[j].holder == Some(c)
    ensures JointStep(srv, CardStep(cfg, srv, c, j, op, k), c, j)
  {
  }

  lemma CardKeeps<S, K>(cfg: Config<S, K>, srv: Server<S, K>, c: nat, j: nat, op: Op, k: K)
    requires Structure(cfg, srv) && c < |srv.clients| && j < |srv.sessions|
    requires srv.clients[c].phase == Inside(op, k) && srv.clients[c].session == Some(j)
    ensures Structure(cfg, CardStep(cfg, srv, c, j, op, k))
  {
    assert IsInside(srv, c, j);
    CardIsJoint(cfg, srv, c, j, op, k);
    JointStepKeeps(cfg, srv, CardStep(cfg, srv, c, j, op, k), c, j);
  }

  lemma ReadShape<K>(client: Client<K>, sessions: nat)
    requires ClientShape(client, sessions) && client.phase.Reading?
    ensures ClientShape(ReadStep(client), sessions) && !ReadStep(client).phase.Inside?
  {
  }

  lemma BreakShape<K>(client: Client<K>, kept: nat, sessions: nat)
    requires ClientShape(client, sessions) && BreakStep(client, kept).Some?
    ensures ClientShape(BreakStep(client, kept).value, sessions)
  {
  }

  lemma AcceptKeeps<S, K>(cfg: Config<S, K>, srv: Server<S, K>, stream: Bytes)
    requires Structure(cfg, srv)
    ensures Structure(cfg, Next(cfg, srv, Accept(stream)).value)
  {
    var srv' := Next(cfg, srv, Accept(stream)).value;
    forall d: nat, j: nat ensures IsInside(srv', d, j) == IsInside(srv, d, j) {
    }
  }

  lemma TickKeeps<S, K>(cfg: Config<S, K>, srv: Server<S, K>, c: nat)
    requires Structure(cfg, srv) && c < |srv.clients| && TickStep(cfg, srv, c).Some?
    ensures Structure(cfg, TickStep(cfg, srv, c).value)
  {
    var client := srv.clients[c];
    match client.phase
    case Accepted => SupplyKeeps(cfg, srv, c);
    case Reading =>
      ReadShape(client, |srv.sessions|);
      LocalStep(cfg, srv, c, ReadStep(client));
    case Waiting(op) => EnterKeeps(cfg, srv, c, client.session.value, op);
    case Inside(op, k) => CardKeeps(cfg, srv, c, client.session.value, op, k);
    case Replying(_) =>
      ReplyShape(client, |srv.sessions|);
      LocalStep(cfg, srv, c, ReplyStep(client));
    case _ =>
  }

  lemma StepKeepsStructure<S, K>(cfg: Config<S, K>, srv: Server<S, K>, event: Event)
    requires Structure(cfg, srv) && Next(cfg, srv, event).Some?
    ensures Structure(cfg, Next(cfg, srv, event).value)
  {
    match event
    case Accept(stream) => AcceptKeeps(cfg, srv, stream);
    case Tick(c) => TickKeeps(cfg, srv, c);
    case Break(c, kept) =>
      BreakShape(srv.clients[c], kept, |srv.sessions|);
      LocalStep(cfg, srv, c, BreakStep(srv.clients[c], kept).value);
  }

  lemma {:induction false} ReachableStructure<S, K>(cfg: Config<S, K>, events: seq<Event>)
    requires Run(cfg, events).Some?
    ensures Structure(cfg, Run(cfg, events).value)
  {
    if events != [] {
      ReachableStructure(cfg, events[..|events| - 1]);
      StepKeepsStructure(cfg, Run(cfg, events[..|events| - 1]).value, events[|events| - 1]);
    }
  }

  // Some connection has the card that was created at startup.
  ghost predicate WarmHandedOut<S, K>(srv: Server<S, K>) {
    exists c :: 0 <= c < |srv.clients| && srv.clients[c].session == Some(0)
  }

  // A connection keeps the session it was given.
  lemma SessionStays<S, K>(cfg: Config<S, K>, srv: Server<S, K>, event: Event, c: nat)
    requires Next(cfg, srv, event).Some? && c < |srv.clients|
    requires srv.clients[c].session.Some? && !srv.clients[c].phase.Accepted?
    ensures var srv' := Next(cfg, srv, event).value;
            c < |srv'.clients| && srv'.clients[c].session == srv.clients[c].session
  {
    match event
    case Accept(_) =>
    case Tick(d) => TickKeepsSession(cfg, srv, d, c);
    case Break(_, _) =>
  }

  lemma TickKeepsSession<S, K>(cfg: Config<S, K>, srv: Server<S, K>, d: nat, c: nat)
    requires c < |srv.clients| && d < |srv.clients| && TickStep(cfg, srv, d).Some?
    requires srv.clients[c].session.Some? && !srv.clients[c].phase.Accepted?
    ensures var srv' := TickStep(cfg, srv, d).value;
            c < |srv'.clients| && srv'.clients[c].session == srv.clients[c].session
  {
  }

  // Only a thread that asks the supplier changes what was asked of it.
  lemma OnlySupplyAsks<S, K>(cfg: Config<S, K>, srv: Server<S, K>, event: Event)
    requires Next(cfg, srv, event).Some? && Next(cfg, srv, event).value.asked != srv.asked
    ensures event.Tick? && event.client < |srv.clients| && srv.clients[event.client].phase.Accepted?
    ensures Next(cfg, srv, event).value == SupplyStep(cfg, srv, event.client)
  {
  }

  lemma StepHandsOutWarm<S, K>(cfg: Config<S, K>, srv: Server<S, K>, event: Event)
    requires Structure(cfg, srv) && cfg.scope == Connection && Next(cfg, srv, event).Some?
    requires srv.asked > 0 ==> WarmHandedOut(srv)
    ensures Next(cfg, srv, event).value.asked > 0 ==> WarmHandedOut(Next(cfg, srv, event).value)
  {
    var srv' := Next(cfg, srv, event).value;
    if srv.asked > 0 {
      var c :| 0 <= c < |srv.clients| && srv.clients[c].session == Some(0);
      SessionStays(cfg, srv, event, c);
    } else if srv'.asked > 0 {
      OnlySupplyAsks(cfg, srv, event);
      assert srv'.clients[event.client].session == Some(0);
    }
  }

  lemma {:induction false} ReachableWarm<S, K>(cfg: Config<S, K>, events: seq<Event>)
    requires Run(cfg, events).Some? && cfg.scope == Connection
    ensures Run(cfg, events).value.asked > 0 ==> WarmHandedOut(Run(cfg, events).value)
  {
    if events != [] {
      var before := events[..|events| - 1];
      ReachableWarm(cfg, before);
      ReachableStructure(cfg, before);
      StepHandsOutWarm(cfg, Run(cfg, before).value, events[|events| - 1]);
    }
  }

  // The supplier hands out pairwise distinct cards, the warm one exactly once: to no connection
  // before the first that asks, and from then on to one. create() runs once at startup and then
  // for every connection but that one.
  lemma ConnectionsGetTheirOwnCards<S, K>(cfg: Config<S, K>, events: seq<Event>)
    requires Run(cfg, events).Some? && cfg.scope == Connection
    ensures var srv := Run(cfg, events).value;
            && srv.created == (if srv.asked == 0 then 1 else srv.asked)
            && (srv.warm <==> srv.asked == 0) && (srv.warm <==> !WarmHandedOut(srv))
            && (forall c, d | 0 <= c < d < |srv.clients|
                              && srv.clients[c].session.Some? && srv.clients[d].session.Some? ::
                  var i, j := srv.clients[c].session.value, srv.clients[d].session.value;
                  i < |srv.sessions| && j < |srv.sessions| && srv.sessions[i].born != srv.sessions[j].born)
  {
    ReachableStructure(cfg, events);
    ReachableWarm(cfg, events);
    var srv := Run(cfg, events).value;
    forall c, d | 0 <= c < d < |srv.clients| && srv.clients[c].session.Some? && srv.clients[d].session.Some?
      ensures srv.clients[c].session.value != srv.clients[d].session.value
    {
      assert srv.clients[c].session != srv.clients[d].session;
    }
  }

  // No deadlock: while some connection has not ended, some thread can take a step.
  lemma SomeoneCanMove<S, K>(cfg: Config<S, K>, events: seq<Event>, c: nat)
    requires Run(cfg, events).Some? && c < |Run(cfg, events).value.clients|
    requires var phase := Run(cfg, events).value.clients[c].phase; !phase.Ended? && !phase.Lost? && !phase.Broken?
    ensures exists d: nat :: Next(cfg, Run(cfg, events).value, Tick(d)).Some?
  {
    ReachableStructure(cfg, events);
    var srv := Run(cfg, events).value;
    if Next(cfg, srv, Tick(c)).None? {
      var j := srv.clients[c].session.value;
      assert IsInside(srv, srv.sessions[j].holder.value, j);
      assert Next(cfg, srv, Tick(srv.sessions[j].holder.value)).Some?;
    }
  }
}
