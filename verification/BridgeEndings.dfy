/** How connections begin and end: who gets a session, and that only a failed connection is cut short. */
module BridgeEndings {
  import opened Wrappers
  import opened FrameCodec
  import opened Replies
  import opened Bridge
  import opened BridgeStructure
  import opened BridgeSerial
  import opened BridgeClients
  import opened BridgeIsolation

  ghost predicate Unbroken(events: seq<Event>, c: nat) {
    forall kept :: Break(c, kept) !in events
  }

  ghost predicate CutShort<K>(client: Client<K>) {
    client.phase.Lost? || client.phase.Broken?
  }

  // Whose thread a step belongs to; accepting a connection is nobody's.
  predicate IsOf(event: Event, c: nat) {
    match event
    case Accept(_) => false
    case Tick(d) => d == c
    case Break(d, _) => d == c
  }

  // A thread is moved by its own steps only.
  lemma OthersUntouched<S, K>(cfg: Config<S, K>, srv: Server<S, K>, event: Event, c: nat)
    requires Next(cfg, srv, event).Some? && c < |srv.clients| && !IsOf(event, c)
    ensures var srv' := Next(cfg, srv, event).value; c < |srv'.clients| && srv'.clients[c] == srv.clients[c]
  {
    match event
    case Accept(_) =>
    case Tick(d) => TickTouchesOne(cfg, srv, d, c);
    case Break(_, _) =>
  }

  lemma TickTouchesOne<S, K>(cfg: Config<S, K>, srv: Server<S, K>, d: nat, c: nat)
    requires d < |srv.clients| && TickStep(cfg, srv, d).Some? && c < |srv.clients| && c != d
    ensures var after := TickStep(cfg, srv, d).value.clients; |after| == |srv.clients| && after[c] == srv.clients[c]
  {
  }

  lemma NewcomerIsAccepted<S, K>(cfg: Config<S, K>, srv: Server<S, K>, event: Event, c: nat)
    requires Next(cfg, srv, event).Some? && |srv.clients| <= c < |Next(cfg, srv, event).value.clients|
    ensures event.Accept? && Next(cfg, srv, event).value.clients[c]
                          == Client(event.stream, event.stream, [], [], None, Accepted)
  {
    match event
    case Accept(_) =>
    case Tick(d) => TickTouchesOne(cfg, srv, d, if d == 0 then 1 else 0);
    case Break(_, _) =>
  }

  lemma TickDoesNotCut<S, K>(cfg: Config<S, K>, srv: Server<S, K>, c: nat)
    requires c < |srv.clients| && TickStep(cfg, srv, c).Some?
    ensures var srv' := TickStep(cfg, srv, c).value; |srv'.clients| == |srv.clients| && !CutShort(srv'.clients[c])
  {
  }

  lemma StepCuts<S, K>(cfg: Config<S, K>, srv: Server<S, K>, event: Event, c: nat)
    requires Next(cfg, srv, event).Some? && c < |Next(cfg, srv, event).value.clients|
    requires CutShort(Next(cfg, srv, event).value.clients[c])
    ensures (c < |srv.clients| && CutShort(srv.clients[c])) || (event.Break? && event.client == c)
  {
    if c >= |srv.clients| {
      NewcomerIsAccepted(cfg, srv, event, c);
    } else if !IsOf(event, c) {
      OthersUntouched(cfg, srv, event, c);
    } else if event.Tick? {
      TickDoesNotCut(cfg, srv, c);
    }
  }

  // No step of a thread loses its connection: that takes a failure from outside.
  lemma {:induction false} OnlyBreaksCut<S, K>(cfg: Config<S, K>, events: seq<Event>, c: nat)
    requires Run(cfg, events).Some? && c < |Run(cfg, events).value.clients|
    requires CutShort(Run(cfg, events).value.clients[c])
    ensures !Unbroken(events, c)
  {
    if events != [] {
      var before, event := events[..|events| - 1], events[|events| - 1];
      StepCuts(cfg, Run(cfg, before).value, event, c);
      if event.Break? && event.client == c {
        assert Break(c, event.kept) in events;
      } else {
        OnlyBreaksCut(cfg, before, c);
        assert forall e | e in before :: e in events;
      }
    }
  }

  // A connection that does not fail and is over has been told all there is to tell: in either scope
  // what the log says about its operations, in connection scope what it is told alone.
  lemma EndedIsAnswered<S, K>(cfg: Config<S, K>, events: seq<Event>, c: nat)
    requires Run(cfg, events).Some? && c < |Run(cfg, events).value.clients| && Unbroken(events, c)
    ensures var srv := Run(cfg, events).value;
            var client := srv.clients[c];
            && !CutShort(client)
            && (client.phase.Ended? && client.session.Some? ==>
                  && client.answered == Told(client.sent, ByClient(srv.log, c))
                  && AllFramable(client.answered) && client.written == EncodeAll(client.answered)
                  && (cfg.scope == Connection ==>
                        && FreshCard(cfg, srv, c).Some?
                        && client.written
                           == EncodeAll(Alone(cfg.card, FreshCard(cfg, srv, c).value, client.sent))))
  {
    var srv := Run(cfg, events).value;
    if CutShort(srv.clients[c]) {
      OnlyBreaksCut(cfg, events, c);
    }
    ReachableStructure(cfg, events);
    RepliesFollowTheLog(cfg, events, c);
    if srv.clients[c].phase.Ended? && srv.clients[c].session.Some? {
      assert ByClient(srv.log, c) + [] == ByClient(srv.log, c);
      if cfg.scope == Connection {
        EndedAsIfAlone(cfg, events, c);
      }
    }
  }

  lemma EndedAsIfAlone<S, K>(cfg: Config<S, K>, events: seq<Event>, c: nat)
    requires Run(cfg, events).Some? && cfg.scope == Connection && c < |Run(cfg, events).value.clients|
    requires var client := Run(cfg, events).value.clients[c]; client.phase.Ended? && client.session.Some?
    ensures var srv := Run(cfg, events).value;
            && FreshCard(cfg, srv, c).Some?
            && srv.clients[c].written == EncodeAll(Alone(cfg.card, FreshCard(cfg, srv, c).value, srv.clients[c].sent))
  {
    ServedAsIfAlone(cfg, events, c);
  }

  // ---- Who gets a session.

  // The k-th event is thread c asking the supplier.
  ghost predicate AsksAt<S, K>(cfg: Config<S, K>, events: seq<Event>, c: nat, k: nat) {
    && k < |events| && events[k] == Tick(c) && Run(cfg, events[..k]).Some?
    && c < |Run(cfg, events[..k]).value.clients| && Run(cfg, events[..k]).value.clients[c].phase.Accepted?
  }

  /** The create() call whose card is for a thread that asks now: the first one of all in shared scope. */
  function CreateFor<S, K>(cfg: Config<S, K>, srv: Server<S, K>): nat {
    if cfg.scope == Shared then 0 else srv.asked
  }

  // The thread has the session of that create() call, or the call failed and it is over.
  ghost predicate HasSessionOf<S, K>(cfg: Config<S, K>, srv: Server<S, K>, c: nat, call: nat)
    requires c < |srv.clients|
  {
    match srv.clients[c].session
    case None => cfg.provider(call).None? && srv.clients[c].phase.Ended?
    case Some(j) => cfg.provider(call).Some? && j < |srv.sessions| && srv.sessions[j].born == call
  }

  lemma AskingSupplies<S, K>(cfg: Config<S, K>, srv: Server<S, K>, c: nat)
    requires Structure(cfg, srv) && c < |srv.clients| && srv.clients[c].phase.Accepted?
    ensures HasSessionOf(cfg, SupplyStep(cfg, srv, c), c, CreateFor(cfg, srv))
  {
  }

  // Sessions stay with the create() call they came from.
  ghost predicate BornStays<S, K>(srv: Server<S, K>, srv': Server<S, K>) {
    && |srv.sessions| <= |srv'.sessions|
    && forall j | 0 <= j < |srv.sessions| :: srv'.sessions[j].born == srv.sessions[j].born
  }

  lemma StepKeepsBorn<S, K>(cfg: Config<S, K>, srv: Server<S, K>, event: Event)
    requires Next(cfg, srv, event).Some?
    ensures BornStays(srv, Next(cfg, srv, event).value)
  {
    match event
    case Accept(_) =>
    case Tick(d) => TickKeepsBorn(cfg, srv, d);
    case Break(_, _) =>
  }

  lemma TickKeepsBorn<S, K>(cfg: Config<S, K>, srv: Server<S, K>, d: nat)
    requires d < |srv.clients| && TickStep(cfg, srv, d).Some?
    ensures BornStays(srv, TickStep(cfg, srv, d).value)
  {
  }

  // What its own steps leave a thread that has its session.
  lemma OwnTick<S, K>(cfg: Config<S, K>, srv: Server<S, K>, c: nat)
    requires c < |srv.clients| && TickStep(cfg, srv, c).Some? && !srv.clients[c].phase.Accepted?
    ensures var after := TickStep(cfg, srv, c).value.clients;
            |after| == |srv.clients| && after[c].session == srv.clients[c].session && !after[c].phase.Accepted?
  {
  }

  lemma StepKeepsSession<S, K>(cfg: Config<S, K>, srv: Server<S, K>, event: Event, c: nat)
    requires Next(cfg, srv, event).Some? && c < |srv.clients|
    requires !srv.clients[c].phase.Accepted? && (srv.clients[c].session.None? ==> srv.clients[c].phase.Ended?)
    ensures var after := Next(cfg, srv, event).value.clients;
            && c < |after| && !after[c].phase.Accepted? && after[c].session == srv.clients[c].session
            && (srv.clients[c].phase.Ended? ==> after[c].phase.Ended?)
  {
    if !IsOf(event, c) {
      OthersUntouched(cfg, srv, event, c);
    } else if event.Tick? {
      OwnTick(cfg, srv, c);
    }
  }

  lemma StepKeepsCreate<S, K>(cfg: Config<S, K>, srv: Server<S, K>, event: Event, c: nat, call: nat)
    requires Next(cfg, srv, event).Some? && c < |srv.clients|
    requires !srv.clients[c].phase.Accepted? && HasSessionOf(cfg, srv, c, call)
    ensures c < |Next(cfg, srv, event).value.clients| && HasSessionOf(cfg, Next(cfg, srv, event).value, c, call)
  {
    StepKeepsSession(cfg, srv, event, c);
    StepKeepsBorn(cfg, srv, event);
  }

  lemma AcceptedMoves<S, K>(cfg: Config<S, K>, srv: Server<S, K>, event: Event, c: nat)
    requires Next(cfg, srv, event).Some? && c < |srv.clients| && srv.clients[c].phase.Accepted?
    requires c < |Next(cfg, srv, event).value.clients| && !Next(cfg, srv, event).value.clients[c].phase.Accepted?
    ensures IsOf(event, c)
  {
    if !IsOf(event, c) {
      OthersUntouched(cfg, srv, event, c);
    }
  }

  lemma AskedLast<S, K>(cfg: Config<S, K>, before: seq<Event>, event: Event, c: nat)
    requires Run(cfg, before).Some? && Next(cfg, Run(cfg, before).value, event).Some?
    requires var srv := Run(cfg, before).value; c < |srv.clients| && srv.clients[c].phase.Accepted?
    requires !event.Break?
    requires var srv' := Next(cfg, Run(cfg, before).value, event).value;
             c < |srv'.clients| && !srv'.clients[c].phase.Accepted?
    ensures AsksAt(cfg, before + [event], c, |before|)
    ensures var srv := Run(cfg, before).value;
            HasSessionOf(cfg, Next(cfg, srv, event).value, c, CreateFor(cfg, srv))
  {
    AcceptedMoves(cfg, Run(cfg, before).value, event, c);
    assert (before + [event])[..|before|] == before;
    ReachableStructure(cfg, before);
    AskingSupplies(cfg, Run(cfg, before).value, c);
  }

  // A thread that has gone on from being accepted asked the supplier, and got the session of the
  // create() call that was its own: the startup's for the first to ask and in shared scope, one
  // call for each later one. Without one it is over, and that only because its call failed.
  lemma {:induction false} SessionUnlessCreateFailed<S, K>(cfg: Config<S, K>, events: seq<Event>, c: nat)
    returns (k: nat)
    requires Run(cfg, events).Some? && c < |Run(cfg, events).value.clients|
    requires Unbroken(events, c) && !Run(cfg, events).value.clients[c].phase.Accepted?
    ensures AsksAt(cfg, events, c, k)
    ensures HasSessionOf(cfg, Run(cfg, events).value, c, CreateFor(cfg, Run(cfg, events[..k]).value))
  {
    var before, event := events[..|events| - 1], events[|events| - 1];
    var srv := Run(cfg, before).value;
    assert event in events && forall e | e in before :: e in events;
    assert events == before + [event];
    if c >= |srv.clients| {
      NewcomerIsAccepted(cfg, srv, event, c);
    } else if srv.clients[c].phase.Accepted? {
      k := |before|;
      AcceptedMoves(cfg, srv, event, c);
      AskedLast(cfg, before, event, c);
    } else {
      k := SessionUnlessCreateFailed(cfg, before, c);
      assert events[..k] == before[..k];
      StepKeepsCreate(cfg, srv, event, c, CreateFor(cfg, Run(cfg, before[..k]).value));
    }
  }

  // ---- No thread is busy for ever.

  // What a thread has still to do, however its card answers.
  function Remaining<K>(client: Client<K>): nat {
    8 * |client.unread| +
    match client.phase
    case Accepted => 6
    case Waiting(_) => 5
    case Inside(_, _) => 4
    case Replying(_) => 3
    case Reading => 2
    case _ => 0
  }

  // A step inside the card, after which the thread is still inside.
  predicate StaysInside<S, K>(cfg: Config<S, K>, srv: Server<S, K>, c: nat)
    requires c < |srv.clients|
  {
    var client := srv.clients[c];
    && client.phase.Inside? && client.session.Some? && client.session.value < |srv.sessions|
    && cfg.card.step(srv.sessions[client.session.value].sim, client.phase.local).More?
  }

  function Counts<S, K>(cfg: Config<S, K>, srv: Server<S, K>, event: Event, c: nat): nat {
    if event == Tick(c) && c < |srv.clients| && !StaysInside(cfg, srv, c) then 1 else 0
  }

  // How often thread c has moved, the steps inside the card that leave it there not counted.
  function StepsOf<S, K>(cfg: Config<S, K>, events: seq<Event>, c: nat): nat
    requires Run(cfg, events).Some?
  {
    if events == [] then 0
    else
      var before, event := events[..|events| - 1], events[|events| - 1];
      StepsOf(cfg, before, c) + Counts(cfg, Run(cfg, before).value, event, c)
  }

  lemma OwnTickGetsOn<S, K>(cfg: Config<S, K>, srv: Server<S, K>, c: nat)
    requires c < |srv.clients| && TickStep(cfg, srv, c).Some?
    ensures var after := TickStep(cfg, srv, c).value.clients;
            && |after| == |srv.clients| && after[c].sent == srv.clients[c].sent
            && Remaining(after[c]) + (if StaysInside(cfg, srv, c) then 0 else 1) <= Remaining(srv.clients[c])
  {
  }

  lemma StepGetsOn<S, K>(cfg: Config<S, K>, srv: Server<S, K>, event: Event, c: nat)
    requires Next(cfg, srv, event).Some? && c < |srv.clients|
    ensures var after := Next(cfg, srv, event).value.clients;
            && c < |after| && after[c].sent == srv.clients[c].sent
            && Remaining(after[c]) + Counts(cfg, srv, event, c) <= Remaining(srv.clients[c])
  {
    if !IsOf(event, c) {
      OthersUntouched(cfg, srv, event, c);
    } else if event.Tick? {
      OwnTickGetsOn(cfg, srv, c);
    }
  }

  // Whatever the interleaving, a thread takes at most a bounded number of steps outside the card,
  // so that it ends as soon as it is let run and its card returns.
  lemma {:induction false} StepsAreBounded<S, K>(cfg: Config<S, K>, events: seq<Event>, c: nat)
    requires Run(cfg, events).Some? && c < |Run(cfg, events).value.clients|
    ensures var client := Run(cfg, events).value.clients[c];
            StepsOf(cfg, events, c) + Remaining(client) <= 8 * |client.sent| + 6
  {
    if events != [] {
      var before, event := events[..|events| - 1], events[|events| - 1];
      var srv := Run(cfg, before).value;
      if c < |srv.clients| {
        StepsAreBounded(cfg, before, c);
        StepGetsOn(cfg, srv, event, c);
      } else {
        NewcomerIsAccepted(cfg, srv, event, c);
        NoSteps(cfg, before, c);
      }
    }
  }

  lemma {:induction false} NoSteps<S, K>(cfg: Config<S, K>, events: seq<Event>, c: nat)
    requires Run(cfg, events).Some? && c >= |Run(cfg, events).value.clients|
    ensures StepsOf(cfg, events, c) == 0
  {
    if events != [] {
      NoSteps(cfg, events[..|events| - 1], c);
    }
  }
}
