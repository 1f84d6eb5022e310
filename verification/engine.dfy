/**
 * Engine: the whole server as a state machine over the events it reacts to:
 * a socket opening, a socket closing, a message arriving, and a delayed flip
 * falling due one second after CheckVoteCount scheduled it.
 */
module Engine {
  import opened Wrappers
  import opened Rounds
  import opened CardServer
  import opened SessionInvariant
  import Handlers
  import Dispatch
  import HandlerInvariant

  /** The session and the number of delayed flips scheduled but not yet run. */
  datatype Server = Server(session: Session, pendingFlips: nat)

  datatype Event =
    | Connect(id: ClientId)
    | Disconnect(me: nat)
    | Message(me: nat, msg: Dispatch.Inbound)
    | FlipDue

  /** What an event leads to: the next server and the messages sent, or an exception. */
  datatype Step = Next(server: Server, sent: seq<Delivery>) | Crashed(fault: Fault)

  function Start(adminPassword: string): (srv: Server)
    ensures srv.session == Init(adminPassword) && srv.pendingFlips == 0
  {
    Server(Init(adminPassword), 0)
  }

  /** A Guid the session has not seen: no connected client and no admin entry carries it. */
  predicate FreshId(s: Session, id: ClientId)
  {
    (forall k | 0 <= k < |s.clients| :: s.clients[k].id != id) && id !in s.admins
  }

  /** When an event can happen: sockets belong to connected clients, and a flip is due only if one was scheduled. */
  predicate Enabled(srv: Server, e: Event)
  {
    match e
    case Connect(id) => FreshId(srv.session, id)
    case Disconnect(me) => me < |srv.session.clients|
    case Message(me, _) => me < |srv.session.clients|
    case FlipDue => srv.pendingFlips > 0
  }

  /** CardServer.NewClient: a new client without name or flags joins at the end; nothing is sent. */
  function NewClient(s: Session, id: ClientId): (s': Session)
    ensures s'.clients == s.clients + [ClientInfo(id, None, false, false)]
    ensures s' == s.(clients := s'.clients)
  {
    s.(clients := s.clients + [ClientInfo(id, None, false, false)])
  }

  /**
   * The outcome of an event on the session, with the code as written: a flip
   * falling due runs the thread body without its missing null check.
   */
  function Handle(s: Session, e: Event): (o: Outcome)
    requires e.Connect? ==> FreshId(s, e.id)
    requires e.Disconnect? ==> e.me < |s.clients|
    requires e.Message? ==> e.me < |s.clients|
    ensures e.Connect? ==> o == Done(NewClient(s, e.id), true, [], false)
    ensures e.FlipDue? && ActiveRound(s.rounds) == NoActive ==> o == Threw(NoRoundToFlip)
    ensures e.FlipDue? && ActiveRound(s.rounds).ActiveAt? ==> o == FlipAndBroadcast(s, ActiveRound(s.rounds).index)
    ensures e.Message? && e.msg.Request? && Dispatch.Target(e.msg.methodName).None? ==> o == Done(s, false, [], false)
  {
    match e
    case Connect(id) => Done(NewClient(s, id), true, [], false)
    case Disconnect(me) => Handlers.Disconnected(s, me)
    case Message(me, msg) => Dispatch.Receive(s, me, msg)
    case FlipDue => DelayedFlipAsWritten(s)
  }

  /** One event: the outcome, with the scheduled flips counted. */
  function Apply(srv: Server, e: Event): (r: Step)
    requires Enabled(srv, e)
    ensures Handle(srv.session, e).Threw? <==> r.Crashed?
    ensures r.Next? ==> r.server.session == Handle(srv.session, e).state
    ensures r.Next? ==>
      r.server.pendingFlips ==
        srv.pendingFlips - (if e.FlipDue? then 1 else 0) + (if Handle(srv.session, e).flipScheduled then 1 else 0)
  {
    var pending := if e.FlipDue? then srv.pendingFlips - 1 else srv.pendingFlips;
    match Handle(srv.session, e)
    case Threw(f) => Crashed(f)
    case Done(st, _, sent, flip) => Next(Server(st, pending + (if flip then 1 else 0)), sent)
  }

  lemma StartValid(adminPassword: string)
    ensures Valid(Start(adminPassword).session)
  {
    InitValid(adminPassword);
  }

  lemma ConnectKeepsValid(s: Session, id: ClientId)
    requires Valid(s) && FreshId(s, id)
    ensures Valid(NewClient(s, id))
  {
  }

  /**
   * From a valid session every enabled event leads to a valid session, except
   * for two crashes: a message naming a handler with the wrong number of
   * arguments, which throws before the handler runs, and a flip falling due
   * after its round was decided or discarded, whose thread dereferences null.
   */
  lemma StepKeepsValid(srv: Server, e: Event)
    requires Valid(srv.session) && Enabled(srv, e)
    ensures Apply(srv, e).Next? ==> Valid(Apply(srv, e).server.session)
    ensures Apply(srv, e).Crashed? ==>
      || (&& Apply(srv, e) == Crashed(ArgumentCountMismatch)
          && e.Message? && e.msg.Request? && Dispatch.Target(e.msg.methodName).Some?
          && |e.msg.arguments| != Dispatch.Arity(Dispatch.Target(e.msg.methodName).value))
      || (e.FlipDue? && ActiveRound(srv.session.rounds) == NoActive && Apply(srv, e) == Crashed(NoRoundToFlip))
    ensures e.FlipDue? ==> (Apply(srv, e).Crashed? <==> ActiveRound(srv.session.rounds) == NoActive)
  {
    var s := srv.session;
    match e
    case Connect(id) => ConnectKeepsValid(s, id);
    case Disconnect(me) => HandlerInvariant.DisconnectedKeepsValid(s, me);
    case Message(me, msg) => HandlerInvariant.ReceiveKeepsValid(s, me, msg);
    case FlipDue => DelayedFlipAsWrittenKeepsValid(s);
  }

  /**
   * The crash is reachable from any valid session whose vote just completed:
   * an admin discarding the round before the second is up leaves the pending
   * flip nothing to flip.
   */
  lemma DiscardBeforeFlipCrashes(srv: Server, me: nat)
    requires Valid(srv.session) && VotingComplete(srv.session)
    requires me < |srv.session.clients| && srv.pendingFlips > 0
    ensures var after := Handlers.DiscardRound(srv.session, me);
            && after.Done? && after.ok
            && Apply(Server(after.state, srv.pendingFlips), FlipDue) == Crashed(NoRoundToFlip)
  {
    DelayedFlipAfterDiscardThrows(srv.session);
  }

  /** The server after a sequence of events, or None once an event is not enabled or the server crashes. */
  function Run(srv: Server, events: seq<Event>): (r: Option<Server>)
    ensures |events| == 0 ==> r == Some(srv)
    ensures r.Some? ==> r.value.pendingFlips <= srv.pendingFlips + |events|
    decreases |events|
  {
    if |events| == 0 then Some(srv)
    else if !Enabled(srv, events[0]) then None
    else match Apply(srv, events[0])
      case Crashed(_) => None
      case Next(next, _) => Run(next, events[1..])
  }

  lemma {:induction false} RunKeepsValid(srv: Server, events: seq<Event>)
    requires Valid(srv.session)
    ensures Run(srv, events).Some? ==> Valid(Run(srv, events).value.session)
    decreases |events|
  {
    if |events| > 0 && Enabled(srv, events[0]) {
      StepKeepsValid(srv, events[0]);
      if Apply(srv, events[0]).Next? {
        RunKeepsValid(Apply(srv, events[0]).server, events[1..]);
      }
    }
  }

  /** Running two sequences one after the other is running their concatenation. */
  lemma {:induction false} RunConcat(srv: Server, a: seq<Event>, b: seq<Event>)
    ensures Run(srv, a + b) == (match Run(srv, a) case None => None case Some(mid) => Run(mid, b))
    decreases |a|
  {
    if |a| > 0 {
      assert (a + b)[0] == a[0] && (a + b)[1..] == a[1..] + b;
      if Enabled(srv, a[0]) && Apply(srv, a[0]).Next? {
        RunConcat(Apply(srv, a[0]).server, a[1..], b);
      }
    } else {
      assert a + b == b;
    }
  }

  /** Every reachable session has at most one undecided round, so ActiveRound never throws. */
  lemma ReachableHasOneActiveRound(adminPassword: string, events: seq<Event>)
    ensures Run(Start(adminPassword), events).Some? ==>
      ActiveRound(Run(Start(adminPassword), events).value.session.rounds) != Ambiguous
  {
    StartValid(adminPassword);
    RunKeepsValid(Start(adminPassword), events);
  }
}
