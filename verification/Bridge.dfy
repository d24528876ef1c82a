/**
 The bridge as a transition system (TcpBridgeServer.java, ClientHandler.java, SimulatorSession.java):
 any number of connections, each a thread that reads a frame, calls the card and writes a reply,
 interleaved in any order. A session's monitor is a `holder`; everything between acquiring and
 releasing it happens in separate steps of the thread that holds it.
 */
module Bridge {
  import opened Wrappers
  import opened FrameCodec
  import opened CardMachine
  import opened Replies

  datatype Scope = Connection | Shared

  /** `provider(n)` is the card of the n-th call to create(), None if that call throws or returns null. */
  datatype Config<!S, !K> = Config(card: Card<S, K>, scope: Scope, provider: nat -> Option<S>)

  /**
   Where a handler thread stands. `Waiting` is blocked on, or about to enter, the monitor. A thread
   ends of its own accord, or because its connection fails: `Lost` before or between frames,
   `Broken` in the middle of a reply.
   */
  datatype Phase<+K> =
    | Accepted
    | Reading
    | Waiting(op: Op)
    | Inside(op: Op, local: K)
    | Replying(reply: Bytes)
    | Ended
    | Lost
    | Broken(due: Bytes, kept: nat)

  /**
   One connection. `sent` is every byte the peer will ever send and never changes, `answered`
   the replies written whole; both are only there to state properties.
   */
  datatype Client<+K> = Client(
    sent: Bytes, unread: Bytes, written: Bytes, answered: seq<Bytes>,
    session: Option<nat>, phase: Phase<K>)

  /** A SimulatorSession: a card, its monitor, and which create() call the card came from. */
  datatype Session<+S> = Session(sim: S, holder: Option<nat>, born: nat)

  /** A completed card operation. The log only records what happened; no step reads it. */
  datatype Entry = Entry(client: nat, session: nat, op: Op, outcome: Outcome)

  /** `warm` is the supplier's field of that name, `asked` counts the supplier's get() calls. */
  datatype Server<+S, +K> = Server(
    clients: seq<Client<K>>, sessions: seq<Session<S>>, warm: bool, created: nat, asked: nat,
    log: seq<Entry>)

  datatype Event = Accept(stream: Bytes) | Tick(client: nat) | Break(client: nat, kept: nat)

  // Startup creates the first card before the socket is bound; without it there is no server.
  function Start<S, K>(cfg: Config<S, K>): Option<Server<S, K>> {
    match cfg.provider(0)
    case None => None
    case Some(first) => Some(Server([], [Session(first, None, 0)], cfg.scope == Connection, 1, 0, []))
  }

  // sessions.get(), synchronized: the shared session, the warm card, or a new one.
  function Supply<S, K>(cfg: Config<S, K>, srv: Server<S, K>): (Server<S, K>, Option<nat>) {
    var asked := srv.(asked := srv.asked + 1);
    if cfg.scope == Shared then (asked, Some(0))
    else if srv.warm then (asked.(warm := false), Some(0))
    else
      match cfg.provider(srv.created)
      case None => (asked.(created := srv.created + 1), None)
      case Some(sim) =>
        (asked.(created := srv.created + 1, sessions := srv.sessions + [Session(sim, None, srv.created)]),
         Some(|srv.sessions|))
  }

  function AfterAnswer<K>(answer: Answer): Phase<K> {
    match answer
    case Send(payload) => Replying(payload)
    case HangUp => Ended
  }

  function ReadStep<K>(client: Client<K>): Client<K> {
    match NextFrame(client.unread)
    case Frame(payload, rest) =>
      var phase := match Decode(payload)
                   case CardCall(op) => Waiting(op)
                   case Immediate(answer) => AfterAnswer(answer);
      client.(unread := rest, phase := phase)
    case _ => client.(phase := Ended)
  }

  function ReplyStep<K>(client: Client<K>): Client<K>
    requires client.phase.Replying? && Framable(client.phase.reply)
  {
    client.(written := client.written + Encode(client.phase.reply),
            answered := client.answered + [client.phase.reply],
            phase := Reading)
  }

  // The connection fails while the thread reads, or writes only `kept` bytes of a reply. A
  // thread inside a card operation notices only when it comes to write.
  function BreakStep<K>(client: Client<K>, kept: nat): Option<Client<K>> {
    match client.phase
    case Accepted | Reading => Some(client.(phase := Lost))
    case Replying(reply) =>
      if Framable(reply) && kept < |Encode(reply)| then
        Some(client.(written := client.written + Encode(reply)[..kept], phase := Broken(reply, kept)))
      else None
    case _ => None
  }

  function WithClient<S, K>(srv: Server<S, K>, c: nat, client: Client<K>): Server<S, K>
    requires c < |srv.clients|
  {
    srv.(clients := srv.clients[c := client])
  }

  function SupplyStep<S, K>(cfg: Config<S, K>, srv: Server<S, K>, c: nat): Server<S, K>
    requires c < |srv.clients|
  {
    var (supplied, session) := Supply(cfg, srv);
    var phase := if session.Some? then Reading else Ended;
    WithClient(supplied, c, srv.clients[c].(session := session, phase := phase))
  }

  function EnterStep<S, K>(cfg: Config<S, K>, srv: Server<S, K>, c: nat, j: nat, op: Op): Server<S, K>
    requires c < |srv.clients| && j < |srv.sessions|
  {
    WithClient(srv, c, srv.clients[c].(phase := Inside(op, cfg.card.begin(op))))
      .(sessions := srv.sessions[j := srv.sessions[j].(holder := Some(c))])
  }

  function CardStep<S, K>(cfg: Config<S, K>, srv: Server<S, K>, c: nat, j: nat, op: Op, k: K): Server<S, K>
    requires c < |srv.clients| && j < |srv.sessions|
  {
    match cfg.card.step(srv.sessions[j].sim, k)
    case More(s, k') =>
      WithClient(srv, c, srv.clients[c].(phase := Inside(op, k')))
        .(sessions := srv.sessions[j := srv.sessions[j].(sim := s)])
    case Done(s, outcome) =>
      WithClient(srv, c, srv.clients[c].(phase := AfterAnswer(AnswerTo(op, outcome))))
        .(sessions := srv.sessions[j := srv.sessions[j].(sim := s, holder := None)],
          log := srv.log + [Entry(c, j, op, outcome)])
  }

  // One step of thread c, None when it is blocked or gone.
  function TickStep<S, K>(cfg: Config<S, K>, srv: Server<S, K>, c: nat): Option<Server<S, K>>
    requires c < |srv.clients|
  {
    var client := srv.clients[c];
    match client.phase
    case Accepted => Some(SupplyStep(cfg, srv, c))
    case Reading => Some(WithClient(srv, c, ReadStep(client)))
    case Waiting(op) =>
      if client.session.Some? && client.session.value < |srv.sessions|
         && srv.sessions[client.session.value].holder == None then
        Some(EnterStep(cfg, srv, c, client.session.value, op))
      else None
    case Inside(op, k) =>
      if client.session.Some? && client.session.value < |srv.sessions| then
        Some(CardStep(cfg, srv, c, client.session.value, op, k))
      else None
    case Replying(reply) =>
      if Framable(reply) then Some(WithClient(srv, c, ReplyStep(client))) else None
    case Ended | Lost | Broken(_, _) => None
  }

  function Next<S, K>(cfg: Config<S, K>, srv: Server<S, K>, event: Event): Option<Server<S, K>> {
    match event
    case Accept(stream) =>
      Some(srv.(clients := srv.clients + [Client(stream, stream, [], [], None, Accepted)]))
    case Tick(c) => if c < |srv.clients| then TickStep(cfg, srv, c) else None
    case Break(c, kept) =>
      if c < |srv.clients| then
        match BreakStep(srv.clients[c], kept)
        case Some(client) => Some(WithClient(srv, c, client))
        case None => None
      else None
  }

  /** The state after a schedule of events, None if some event was not possible. */
  function Run<S, K>(cfg: Config<S, K>, events: seq<Event>): Option<Server<S, K>> {
    if events == [] then Start(cfg)
    else
      match Run(cfg, events[..|events| - 1])
      case None => None
      case Some(srv) => Next(cfg, srv, events[|events| - 1])
  }
}
