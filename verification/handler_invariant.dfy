/** Every handler a request can reach keeps the session invariant and never throws on a valid session. */
module HandlerInvariant {
  import opened Wrappers
  import Strings
  import opened Rounds
  import opened CardServer
  import opened SessionInvariant
  import Handlers
  import Dispatch

  /** Changing a client's name or spectator flag leaves ids and admin flags as they were. */
  lemma UpdateClientKeepsRegistry(s: Session, me: nat, c: ClientInfo)
    requires Valid(s) && me < |s.clients|
    requires c.id == s.clients[me].id && c.isAdmin == s.clients[me].isAdmin
    ensures DistinctIds(s.clients[me := c]) && AdminFlagsAgree(s.clients[me := c], s.admins)
  {
  }

  /** Deciding or restarting the active round keeps the rounds valid. */
  lemma CloseOrResetKeepsRounds(s: Session, i: nat, r: Round)
    requires Valid(s) && i < |s.rounds| && IsActive(s.rounds[i]) && r.votes == []
    ensures RoundsOk(s.rounds[i := r])
  {
    ReplaceRound(s.rounds, i, r);
  }

  lemma DisconnectedKeepsValid(s: Session, me: nat)
    requires Valid(s) && me < |s.clients|
    ensures Handlers.Disconnected(s, me).Done? && Valid(Handlers.Disconnected(s, me).state)
  {
    RemoveClientKeepsValid(s, me);
  }

  lemma SwapSpectatorKeepsValid(s: Session, me: nat)
    requires Valid(s) && me < |s.clients|
    ensures Handlers.SwapSpectator(s, me).Done? && Valid(Handlers.SwapSpectator(s, me).state)
  {
    var c := s.clients[me];
    UpdateClientKeepsRegistry(s, me, c.(isSpectator := !c.isSpectator));
    if ActiveRound(s.rounds).ActiveAt? {
      RemoveRound(s.rounds, ActiveRound(s.rounds).index);
    }
  }

  lemma RegisterAdminKeepsValid(s: Session, me: nat, pass: string)
    requires Valid(s) && me < |s.clients|
    ensures Valid(Handlers.RegisterAdmin(s, me, pass).state)
  {
    var c := s.clients[me];
    var admins := s.admins + [c.id];
    var clients := s.clients[me := c.(isAdmin := true)];
    forall k | 0 <= k < |clients|
      ensures clients[k].isAdmin <==> clients[k].id in admins
    {
      if k != me {
        assert clients[k] == s.clients[k] && s.clients[k].id != c.id;
      }
    }
  }

  lemma TakeMajorityKeepsValid(s: Session, me: nat)
    requires Valid(s) && me < |s.clients|
    ensures Handlers.TakeMajority(s, me).Done? && Valid(Handlers.TakeMajority(s, me).state)
  {
    var r := Handlers.TakeMajority(s, me);
    if r.ok {
      var i := ActiveRound(s.rounds).index;
      CloseOrResetKeepsRounds(s, i, r.state.rounds[i]);
    }
  }

  lemma FinalizeVoteKeepsValid(s: Session, me: nat, vote: string)
    requires Valid(s) && me < |s.clients|
    ensures Handlers.FinalizeVote(s, me, vote).Done? && Valid(Handlers.FinalizeVote(s, me, vote).state)
  {
    var r := Handlers.FinalizeVote(s, me, vote);
    if r.ok {
      var i := ActiveRound(s.rounds).index;
      CloseOrResetKeepsRounds(s, i, r.state.rounds[i]);
    }
  }

  lemma RestartRoundKeepsValid(s: Session, me: nat)
    requires Valid(s) && me < |s.clients|
    ensures Handlers.RestartRound(s, me).Done? && Valid(Handlers.RestartRound(s, me).state)
  {
    var r := Handlers.RestartRound(s, me);
    if r.ok {
      var i := ActiveRound(s.rounds).index;
      CloseOrResetKeepsRounds(s, i, r.state.rounds[i]);
    }
  }

  lemma FlipCardsKeepsValid(s: Session, me: nat)
    requires Valid(s) && me < |s.clients|
    ensures Handlers.FlipCards(s, me).Done? && Valid(Handlers.FlipCards(s, me).state)
  {
    if ActiveRound(s.rounds).ActiveAt? {
      FlipRoundKeepsValid(s, ActiveRound(s.rounds).index);
    }
  }

  lemma SetCardsKeepsValid(s: Session, me: nat, text: string)
    requires Valid(s) && me < |s.clients|
    ensures Handlers.SetCards(s, me, text).Done? && Valid(Handlers.SetCards(s, me, text).state)
  {
  }

  /** SetCards as written also keeps the invariant: a deck swapped mid-round leaves the round sound. */
  lemma SetCardsAsWrittenKeepsValid(s: Session, me: nat, text: string)
    requires Valid(s) && me < |s.clients|
    ensures Handlers.SetCardsAsWritten(s, me, text).Done? && Valid(Handlers.SetCardsAsWritten(s, me, text).state)
  {
  }

  /** Every handler, called with the right number of arguments on a valid session, completes and keeps it valid. */
  lemma InvokeKeepsValid(s: Session, me: nat, c: Dispatch.Command, args: seq<string>)
    requires Valid(s) && me < |s.clients| && |args| == Dispatch.Arity(c)
    ensures Dispatch.Invoke(s, me, c, args).Done? && Valid(Dispatch.Invoke(s, me, c, args).state)
  {
    match c
    case RegisterClient =>
      var u := s.clients[me];
      UpdateClientKeepsRegistry(s, me, u.(name := Some(args[0]), isSpectator := if args[1] == "1" then true else u.isSpectator));
    case SwapSpectator => SwapSpectatorKeepsValid(s, me);
    case RegisterAdmin => RegisterAdminKeepsValid(s, me, args[0]);
    case RegisterVote => RegisterVoteKeepsValid(s, me, args[0]);
    case UndoVote => UndoVoteKeepsValid(s, me);
    case NewRoundRequest => BeginNewRoundKeepsValid(s, args[0]);
    case TakeMajority => TakeMajorityKeepsValid(s, me);
    case FinalizeVote => FinalizeVoteKeepsValid(s, me, args[0]);
    case RestartRound => RestartRoundKeepsValid(s, me);
    case FlipCards => FlipCardsKeepsValid(s, me);
    case DiscardActiveRound => DiscardActiveRoundKeepsValid(s);
    case SortCards => SortCardsKeepsValid(s);
    case GetCardList =>
    case SetCards => SetCardsAsWrittenKeepsValid(s, me, args[0]);
    case SetSetting =>
  }

  /**
   * On a valid session a message either completes and keeps the session
   * valid, or names a handler with the wrong number of arguments.
   */
  lemma ReceiveKeepsValid(s: Session, me: nat, msg: Dispatch.Inbound)
    requires Valid(s) && me < |s.clients|
    ensures var r := Dispatch.Receive(s, me, msg);
            (r.Done? && Valid(r.state))
            || (r == Threw(ArgumentCountMismatch) && msg.Request? && Dispatch.Target(msg.methodName).Some?
                && |msg.arguments| != Dispatch.Arity(Dispatch.Target(msg.methodName).value))
  {
    if msg.Request? {
      var t := Dispatch.Target(msg.methodName);
      var r := Dispatch.Receive(s, me, msg);
      if t.Some? {
        if Dispatch.TierOf(t.value) == Dispatch.AdminOnly && s.clients[me].id !in s.admins {
          Dispatch.AdminOnlyGuarded(s, me, msg.methodName, msg.arguments);
        } else if |msg.arguments| == Dispatch.Arity(t.value) {
          Dispatch.PermittedCallRuns(s, me, msg.methodName, msg.arguments);
          InvokeKeepsValid(s, me, t.value, msg.arguments);
        } else {
          assert r == Threw(ArgumentCountMismatch);
        }
      }
    }
  }
}
