/**
 * Dispatch: Client.ReceiveMessage. The request names a public method of the
 * Client class, matched case-insensitively; only methods marked as socket
 * calls run, and the admin-only ones only for a client on the admin list.
 */
module Dispatch {
  import opened Wrappers
  import Strings
  import opened CardServer
  import Handlers

  /** A decoded message: not JSON at all, or a method name with its arguments. */
  datatype Inbound = NotJson | Request(methodName: string, arguments: seq<string>)

  /** The handlers a request can reach. */
  datatype Command =
    | RegisterClient | SwapSpectator | RegisterAdmin | RegisterVote | UndoVote
    | NewRoundRequest | TakeMajority | FinalizeVote | RestartRound | FlipCards
    | DiscardActiveRound | SortCards | GetCardList | SetCards | SetSetting

  /** WebSocketCall marks the open handlers, WebSocketSecurityCall the admin-only ones. */
  datatype Tier = Open | AdminOnly

  /** A public method of Client: its name and, when marked, the handler it is. */
  datatype PublicMethod = PublicMethod(name: string, handler: Option<Command>)

  function TierOf(c: Command): Tier
  {
    match c
    case RegisterClient | SwapSpectator | RegisterAdmin | RegisterVote | UndoVote => Open
    case _ => AdminOnly
  }

  /** The number of string parameters of each handler. */
  function Arity(c: Command): nat
  {
    match c
    case RegisterClient | SetSetting => 2
    case RegisterAdmin | RegisterVote | NewRoundRequest | FinalizeVote | SetCards => 1
    case _ => 0
  }

  /**
   * Type.GetMethods() for Client: the handlers, the unmarked public methods of
   * the class, its property getters and what it inherits from Object. The
   * reflection API promises no order; the table lists them by Signature.
   */
  const Methods: seq<PublicMethod> := [
    PublicMethod("Equals", None),
    PublicMethod("Dispose", None),
    PublicMethod("GetType", None),
    PublicMethod("get_conn", None),
    PublicMethod("get_Info", None),
    PublicMethod("SetCards", Some(SetCards)),
    PublicMethod("ToString", None),
    PublicMethod("UndoVote", Some(UndoVote)),
    PublicMethod("FlipCards", Some(FlipCards)),
    PublicMethod("SendError", None),
    PublicMethod("SortCards", Some(SortCards)),
    PublicMethod("get_server", None),
    PublicMethod("SetSetting", Some(SetSetting)),
    PublicMethod("GetHashCode", None),
    PublicMethod("GetCardList", Some(GetCardList)),
    PublicMethod("SendMessage", None),
    PublicMethod("FinalizeVote", Some(FinalizeVote)),
    PublicMethod("RestartRound", Some(RestartRound)),
    PublicMethod("RegisterVote", Some(RegisterVote)),
    PublicMethod("TakeMajority", Some(TakeMajority)),
    PublicMethod("RegisterAdmin", Some(RegisterAdmin)),
    PublicMethod("SwapSpectator", Some(SwapSpectator)),
    PublicMethod("RegisterClient", Some(RegisterClient)),
    PublicMethod("NewRoundRequest", Some(NewRoundRequest)),
    PublicMethod("DiscardActiveRound", Some(DiscardActiveRound))
  ]

  /** m.Name.ToUpper() == request.MethodName.ToUpper(). */
  predicate NameMatches(m: PublicMethod, requested: string)
  {
    Strings.ToUpper(m.name) == Strings.ToUpper(requested)
  }

  /** The first method of `methods` whose name matches. */
  function FindIn(methods: seq<PublicMethod>, requested: string): (r: Option<PublicMethod>)
    ensures r.Some? ==> r.value in methods && NameMatches(r.value, requested)
    ensures r.None? <==> forall k | 0 <= k < |methods| :: !NameMatches(methods[k], requested)
  {
    if |methods| == 0 then None
    else if NameMatches(methods[0], requested) then Some(methods[0])
    else FindIn(methods[1..], requested)
  }

  /**
   * Length and upper-cased end characters, packed into one number: enough to
   * tell the method names apart.
   */
  function Signature(name: string): int
    requires |name| > 0
  {
    |name| * 0x1_0000_0000 + Strings.UpperChar(name[0]) as int * 0x1_0000 + Strings.UpperChar(name[|name| - 1]) as int
  }

  lemma SameUpperSameSignature(a: string, b: string)
    requires |a| > 0 && |b| > 0 && Strings.ToUpper(a) == Strings.ToUpper(b)
    ensures Signature(a) == Signature(b)
  {
    assert Strings.ToUpper(a)[0] == Strings.ToUpper(b)[0];
    assert Strings.ToUpper(a)[|a| - 1] == Strings.ToUpper(b)[|b| - 1];
  }

  /** The signature of each entry of Methods, which the table lists in increasing signature order. */
  const Signatures: seq<int> := [
    0x600450053, 0x700440045, 0x700470045, 0x80047004e,
    0x80047004f, 0x800530053, 0x800540047, 0x800550045,
    0x900460053, 0x900530052, 0x900530053, 0xa00470052,
    0xa00530047, 0xb00470045, 0xb00470054, 0xb00530045,
    0xc00460045, 0xc00520044, 0xc00520045, 0xc00540059,
    0xd0052004e, 0xd00530052, 0xe00520054, 0xf004e0054,
    0x1200440044
  ]

  lemma SignaturesOfMethods()
    ensures |Signatures| == |Methods|
    ensures forall k | 0 <= k < |Methods| :: |Methods[k].name| > 0 && Signature(Methods[k].name) == Signatures[k]
  {
  }

  /** A sequence that increases from each element to the next increases throughout. */
  lemma {:induction false} StepwiseIncreasing(xs: seq<int>)
    requires forall k | 0 <= k < |xs| - 1 :: xs[k] < xs[k + 1]
    ensures forall i, j | 0 <= i < j < |xs| :: xs[i] < xs[j]
    decreases |xs|
  {
    if |xs| > 1 {
      var front := xs[..|xs| - 1];
      assert forall k | 0 <= k < |front| - 1 :: front[k] < front[k + 1];
      StepwiseIncreasing(front);
      forall i, j | 0 <= i < j < |xs|
        ensures xs[i] < xs[j]
      {
        if j < |xs| - 1 {
          assert front[i] < front[j];
        } else if i < j - 1 {
          assert front[i] < front[j - 1];
        }
      }
    }
  }

  /** No two public methods share an upper-cased name. */
  lemma NamesDistinct()
    ensures forall i, j | 0 <= i < j < |Methods| :: Strings.ToUpper(Methods[i].name) != Strings.ToUpper(Methods[j].name)
  {
    SignaturesOfMethods();
    StepwiseIncreasing(Signatures);
    forall i, j | 0 <= i < j < |Methods|
      ensures Strings.ToUpper(Methods[i].name) != Strings.ToUpper(Methods[j].name)
    {
      DifferentSignatureDifferentUpper(Methods[i].name, Methods[j].name, Signatures[i], Signatures[j]);
    }
  }

  /** Names whose signatures differ differ once upper-cased. */
  lemma DifferentSignatureDifferentUpper(a: string, b: string, sa: int, sb: int)
    requires |a| > 0 && |b| > 0 && Signature(a) == sa && Signature(b) == sb && sa != sb
    ensures Strings.ToUpper(a) != Strings.ToUpper(b)
  {
    if Strings.ToUpper(a) == Strings.ToUpper(b) {
      SameUpperSameSignature(a, b);
    }
  }

  /**
   * The method lookup. At most one method matches any request, so the
   * SingleOrDefault of the source never throws and the first match is the one.
   */
  function Find(requested: string): (r: Option<PublicMethod>)
    ensures r.Some? ==> r.value in Methods && NameMatches(r.value, requested)
    ensures r.Some? ==> forall k | 0 <= k < |Methods| && NameMatches(Methods[k], requested) :: Methods[k] == r.value
    ensures r.None? <==> forall k | 0 <= k < |Methods| :: !NameMatches(Methods[k], requested)
  {
    var r := FindIn(Methods, requested);
    NamesDistinct();
    r
  }

  /** Upper-casing a second time changes nothing. */
  lemma UpperIdempotent(s: string)
    ensures Strings.ToUpper(Strings.ToUpper(s)) == Strings.ToUpper(s)
  {
  }

  /**
   * Runs the handler with the request's arguments, which match its arity.
   * SetCards runs as written, replacing the deck even during a round.
   */
  function Invoke(s: Session, me: nat, c: Command, args: seq<string>): (r: Outcome)
    requires me < |s.clients| && |args| == Arity(c)
    ensures r.Threw? ==> r == Threw(AmbiguousActiveRound) || r == Threw(EmptyVoteValue)
    ensures r.Done? ==> r.state.adminPassword == s.adminPassword
  {
    match c
    case RegisterClient => Handlers.RegisterClient(s, me, args[0], args[1])
    case SwapSpectator => Handlers.SwapSpectator(s, me)
    case RegisterAdmin => Handlers.RegisterAdmin(s, me, args[0])
    case RegisterVote => Handlers.RegisterVote(s, me, args[0])
    case UndoVote => Handlers.UndoVote(s, me)
    case NewRoundRequest => Handlers.NewRoundRequest(s, me, args[0])
    case TakeMajority => Handlers.TakeMajority(s, me)
    case FinalizeVote => Handlers.FinalizeVote(s, me, args[0])
    case RestartRound => Handlers.RestartRound(s, me)
    case FlipCards => Handlers.FlipCards(s, me)
    case DiscardActiveRound => Handlers.DiscardRound(s, me)
    case SortCards => Handlers.SortCards(s, me)
    case GetCardList => Handlers.GetCardList(s, me)
    case SetCards => Handlers.SetCardsAsWritten(s, me, args[0])
    case SetSetting => Handlers.SetSetting(s, me, args[0], args[1])
  }

  /**
   * Client.ReceiveMessage for the client at `me`. Requests for unknown or
   * unmarked methods are only logged; an admin-only call from a client not
   * on the admin list gets SecurityFailure; the wrong number of arguments
   * makes the reflective call throw.
   */
  function Receive(s: Session, me: nat, msg: Inbound): (r: Outcome)
    requires me < |s.clients|
    ensures msg.NotJson? ==> r == Done(s, false, [SendTo(s.clients[me], ErrorReply("ReceiveMessage"))], false)
    ensures msg.Request? && (Find(msg.methodName).None? || Find(msg.methodName).value.handler.None?)
            ==> r == Done(s, false, [], false)
  {
    match msg
    case NotJson => Done(s, false, [SendTo(s.clients[me], ErrorReply("ReceiveMessage"))], false)
    case Request(name, args) => Route(s, me, Target(name), args)
  }

  /** The checks made once the method is known: its attribute, the caller's rights, the argument count. */
  function Route(s: Session, me: nat, target: Option<Command>, args: seq<string>): (r: Outcome)
    requires me < |s.clients|
    ensures target.None? ==> r == Done(s, false, [], false)
    ensures target.Some? && TierOf(target.value) == AdminOnly && s.clients[me].id !in s.admins
            ==> r == Done(s, false, [SendTo(s.clients[me], ErrorReply("SecurityFailure"))], false)
    ensures r.Threw? && !(target.Some? && |args| == Arity(target.value)) ==> r == Threw(ArgumentCountMismatch)
    ensures (target.Some? && (TierOf(target.value) == Open || s.clients[me].id in s.admins)
             && |args| != Arity(target.value)) ==> r == Threw(ArgumentCountMismatch)
  {
    match target
    case None => Done(s, false, [], false)
    case Some(cmd) =>
      if TierOf(cmd) == AdminOnly && s.clients[me].id !in s.admins then
        Done(s, false, [SendTo(s.clients[me], ErrorReply("SecurityFailure"))], false)
      else if |args| != Arity(cmd) then Threw(ArgumentCountMismatch)
      else Invoke(s, me, cmd, args)
  }

  /** The handler a request reaches, if any. */
  function Target(requested: string): Option<Command>
  {
    match Find(requested)
    case None => None
    case Some(m) => m.handler
  }

  /** A client not on the admin list can never change the session through an admin-only handler. */
  lemma AdminOnlyGuarded(s: Session, me: nat, name: string, args: seq<string>)
    requires me < |s.clients| && s.clients[me].id !in s.admins
    requires Target(name).Some? && TierOf(Target(name).value) == AdminOnly
    ensures Receive(s, me, Request(name, args)) == Done(s, false, [SendTo(s.clients[me], ErrorReply("SecurityFailure"))], false)
  {
  }

  /** Upper-casing the requested name does not change which method it finds. */
  lemma FindIgnoresCase(name: string)
    ensures Find(Strings.ToUpper(name)) == Find(name)
  {
    UpperIdempotent(name);
    assert forall k | 0 <= k < |Methods| :: NameMatches(Methods[k], Strings.ToUpper(name)) == NameMatches(Methods[k], name);
    if Find(name).Some? {
      var k :| 0 <= k < |Methods| && Methods[k] == Find(name).value;
      FindsMatching(Strings.ToUpper(name), k);
    }
  }

  /** The method name is matched without regard to case. */
  lemma CaseInsensitive(s: Session, me: nat, name: string, args: seq<string>)
    requires me < |s.clients|
    ensures Receive(s, me, Request(Strings.ToUpper(name), args)) == Receive(s, me, Request(name, args))
  {
    FindIgnoresCase(name);
  }

  /** A well-formed call of a handler the caller may use runs that handler. */
  lemma PermittedCallRuns(s: Session, me: nat, name: string, args: seq<string>)
    requires me < |s.clients|
    requires Target(name).Some? && |args| == Arity(Target(name).value)
    requires TierOf(Target(name).value) == Open || s.clients[me].id in s.admins
    ensures Receive(s, me, Request(name, args)) == Invoke(s, me, Target(name).value, args)
  {
  }

  /** Where the table lists each handler: every handler is a public method of Client. */
  function HandlerIndex(c: Command): (k: nat)
    ensures k < |Methods| && Methods[k].handler == Some(c)
  {
    match c
    case RegisterClient => 22
    case SwapSpectator => 21
    case RegisterAdmin => 20
    case RegisterVote => 18
    case UndoVote => 7
    case NewRoundRequest => 23
    case TakeMajority => 19
    case FinalizeVote => 16
    case RestartRound => 17
    case FlipCards => 8
    case DiscardActiveRound => 24
    case SortCards => 10
    case GetCardList => 14
    case SetCards => 5
    case SetSetting => 12
  }

  /** A request naming a handler's method reaches that handler. */
  lemma HandlerReachable(c: Command)
    ensures Target(Methods[HandlerIndex(c)].name) == Some(c)
  {
    FindsMatching(Methods[HandlerIndex(c)].name, HandlerIndex(c));
  }

  /** A name that matches the method at index k reaches exactly that method. */
  lemma FindsMatching(name: string, k: nat)
    requires k < |Methods| && NameMatches(Methods[k], name)
    ensures Find(name) == Some(Methods[k])
  {
  }

  /** The lookup ignores case: "registervote" reaches RegisterVote. */
  lemma LowerCaseReachesHandler()
    ensures Target("registervote") == Some(RegisterVote)
  {
    assert Strings.ToUpper("registervote") == Strings.ToUpper(Methods[18].name);
    FindsMatching("registervote", 18);
  }

  /** Dispose is public but unmarked, so a request for it reaches nothing. */
  lemma UnmarkedReachesNothing()
    ensures Target("dispose") == None
  {
    assert Strings.ToUpper("dispose") == Strings.ToUpper(Methods[1].name);
    FindsMatching("dispose", 1);
  }
}
