/**
 * CardServer: the session state and the game functions the client handlers
 * call. Every function returns the next state instead of mutating it.
 */
module CardServer {
  import opened Wrappers
  import Strings
  import CardSets
  import opened Rounds
  import VoteOrder

  /** ClientInfo: what the server keeps per connection. */
  datatype ClientInfo = ClientInfo(id: ClientId, name: Option<string>, isAdmin: bool, isSpectator: bool)

  /**
   * The session: the connected clients in connection order, the ids on the
   * admin list (a client is appended on every successful login, so an id may
   * repeat), every round played, the settings store, the admin password, and
   * the card set (a process-wide singleton in the source, held here).
   */
  datatype Session = Session(
    clients: seq<ClientInfo>,
    admins: seq<ClientId>,
    rounds: seq<Round>,
    settings: map<string, string>,
    adminPassword: string,
    deck: seq<string>)

  /** What a client is sent. Payloads other than the card list are left abstract. */
  datatype Message = Notice(command: string) | CardList(text: string) | ErrorReply(source: string)

  /** One message and its recipients, in send order. */
  datatype Delivery = Delivery(recipients: seq<ClientId>, message: Message)

  /** The exceptions the modelled code can raise. */
  datatype Fault =
    | AmbiguousActiveRound   // SingleOrDefault in ActiveRound met two undecided rounds
    | EmptyVoteValue         // VoteComparer read the first character of an empty value
    | ArgumentCountMismatch  // MethodInfo.Invoke got the wrong number of arguments
    | NoRoundToFlip          // the delayed flip dereferenced a null ActiveRound

  /**
   * The effect of one operation: the next state, the operation's boolean
   * result, the messages sent, and whether the delayed flip was scheduled;
   * or the exception it raised.
   */
  datatype Outcome =
    | Done(state: Session, ok: bool, sent: seq<Delivery>, flipScheduled: bool)
    | Threw(fault: Fault)

  /** The value of ActiveRound: none, the index of the one undecided round, or an exception. */
  datatype Lookup = NoActive | ActiveAt(index: nat) | Ambiguous

  /** The CardServer constructor: no clients, no rounds, no settings, the default deck. */
  function Init(adminPassword: string): (s: Session)
    ensures s.clients == [] && s.admins == [] && s.rounds == [] && s.settings == map[]
    ensures s.adminPassword == adminPassword && s.deck == CardSets.Default
  {
    Session([], [], [], map[], adminPassword, CardSets.Default)
  }

  // ---------------------------------------------------------------- rounds

  predicate AtMostOneActive(rounds: seq<Round>)
  {
    forall i, j | 0 <= i < |rounds| && 0 <= j < |rounds| && IsActive(rounds[i]) && IsActive(rounds[j]) :: i == j
  }

  function FirstActiveFrom(rounds: seq<Round>, from: nat): (r: Option<nat>)
    requires from <= |rounds|
    ensures r.Some? ==> from <= r.value < |rounds| && IsActive(rounds[r.value])
    ensures r.Some? ==> forall k | from <= k < r.value :: !IsActive(rounds[k])
    ensures r.None? ==> forall k | from <= k < |rounds| :: !IsActive(rounds[k])
    decreases |rounds| - from
  {
    if from == |rounds| then None
    else if IsActive(rounds[from]) then Some(from)
    else FirstActiveFrom(rounds, from + 1)
  }

  /**
   * CardServer.ActiveRound: the single round whose decision is blank, null
   * when there is none, an exception when there are two or more.
   */
  function ActiveRound(rounds: seq<Round>): (r: Lookup)
    ensures r == NoActive <==> forall k | 0 <= k < |rounds| :: !IsActive(rounds[k])
    ensures r == Ambiguous <==> !AtMostOneActive(rounds)
    ensures r.ActiveAt? ==> r.index < |rounds| && IsActive(rounds[r.index])
    ensures r.ActiveAt? ==> forall k | 0 <= k < |rounds| && k != r.index :: !IsActive(rounds[k])
  {
    match FirstActiveFrom(rounds, 0)
    case None => NoActive
    case Some(i) => if FirstActiveFrom(rounds, i + 1).None? then ActiveAt(i) else Ambiguous
  }

  /** List.RemoveAt / List.Remove of a known element. */
  function RemoveAt<T>(xs: seq<T>, i: nat): (r: seq<T>)
    requires i < |xs|
    ensures |r| == |xs| - 1
    ensures forall k | 0 <= k < |r| :: r[k] == (if k < i then xs[k] else xs[k + 1])
  {
    xs[..i] + xs[i + 1..]
  }

  /** List.Remove(x): drops the first occurrence of x, if any. */
  function RemoveFirst<T(==,!new)>(xs: seq<T>, x: T): (r: seq<T>)
    ensures x !in xs ==> r == xs
    ensures x in xs ==> |r| == |xs| - 1
    ensures forall y | y != x :: (y in r <==> y in xs)
    ensures multiset(r) == multiset(xs) - multiset{x}
  {
    if |xs| == 0 then []
    else if xs[0] == x then
      assert xs == [xs[0]] + xs[1..];
      xs[1..]
    else
      assert xs == [xs[0]] + xs[1..];
      [xs[0]] + RemoveFirst(xs[1..], x)
  }

  // ------------------------------------------------------------- broadcast

  function Ids(clients: seq<ClientInfo>): (ids: seq<ClientId>)
    ensures |ids| == |clients|
    ensures forall k | 0 <= k < |clients| :: ids[k] == clients[k].id
  {
    seq(|clients|, k requires 0 <= k < |clients| => clients[k].id)
  }

  predicate Connected(clients: seq<ClientInfo>, id: ClientId)
  {
    exists k | 0 <= k < |clients| :: clients[k].id == id
  }

  /** Clients.Where(c => !c.Equals(origin)), as ids. */
  function Others(clients: seq<ClientInfo>, origin: ClientId): (ids: seq<ClientId>)
    ensures forall id :: id in ids <==> Connected(clients, id) && id != origin
    ensures |ids| <= |clients|
  {
    if |clients| == 0 then []
    else
      var front := Others(clients[..|clients| - 1], origin);
      var last := clients[|clients| - 1];
      assert forall id :: Connected(clients, id) <==>
        Connected(clients[..|clients| - 1], id) || last.id == id;
      if last.id == origin then front else front + [last.id]
  }

  /**
   * CardServer.BroadcastMessage: to every client when origin is null,
   * otherwise to every client but the origin.
   */
  function BroadcastMessage(clients: seq<ClientInfo>, origin: Option<ClientId>, m: Message): (d: Delivery)
    ensures d.message == m
    ensures forall id :: id in d.recipients <==> Connected(clients, id) && origin != Some(id)
    ensures origin == None ==> d.recipients == Ids(clients)
  {
    if origin.Some? then Delivery(Others(clients, origin.value), m)
    else Delivery(Ids(clients), m)
  }

  /**
   * CardServer.BroadcastError: like BroadcastMessage, except that sendBack
   * includes the origin too.
   */
  function BroadcastError(clients: seq<ClientInfo>, origin: Option<ClientId>, source: string, sendBack: bool): (d: Delivery)
    ensures d.message == ErrorReply(source)
    ensures forall id :: id in d.recipients <==> Connected(clients, id) && (sendBack || origin != Some(id))
    ensures origin == None || sendBack ==> d.recipients == Ids(clients)
  {
    if origin.Some? && !sendBack then Delivery(Others(clients, origin.value), ErrorReply(source))
    else Delivery(Ids(clients), ErrorReply(source))
  }

  /** Client.SendMessage / SendError: one recipient. */
  function SendTo(c: ClientInfo, m: Message): Delivery
  {
    Delivery([c.id], m)
  }

  /** BroadcastGameState: the game state goes to everyone. */
  function GameState(clients: seq<ClientInfo>): Delivery
  {
    BroadcastMessage(clients, None, Notice("GameState"))
  }

  /** BroadcastClientList: the client list, then the game state, to everyone. */
  function ClientList(clients: seq<ClientInfo>): seq<Delivery>
  {
    [BroadcastMessage(clients, None, Notice("ClientList")), GameState(clients)]
  }

  /** The messages of `o` preceded by `before`. */
  function After(before: seq<Delivery>, o: Outcome): (r: Outcome)
    ensures o.Threw? <==> r.Threw?
    ensures r.Done? ==> r.state == o.state && r.ok == o.ok && r.sent == before + o.sent
    ensures r.Done? ==> r.flipScheduled == o.flipScheduled
  {
    match o
    case Threw(f) => Threw(f)
    case Done(st, ok, sent, flip) => Done(st, ok, before + sent, flip)
  }

  // -------------------------------------------------------------- settings

  /** CardServer.UpdateSetting: both branches of the source store the value under the key. */
  function UpdateSetting(s: Session, name: string, value: string): (s': Session)
    ensures s' == s.(settings := s'.settings)
    ensures s'.settings.Keys == s.settings.Keys + {name}
    ensures s'.settings[name] == value
    ensures forall k | k in s.settings && k != name :: s'.settings[k] == s.settings[k]
  {
    s.(settings := s.settings[name := value])
  }

  /** CardServer.GetSetting: the stored value, or the default when the key is absent. */
  function GetSetting(s: Session, key: string, defaultValue: string): (v: string)
    ensures key in s.settings ==> v == s.settings[key]
    ensures key !in s.settings ==> v == defaultValue
  {
    if key in s.settings then s.settings[key] else defaultValue
  }

  /** Reading a setting back returns what was written; other keys are unaffected. */
  lemma SettingsActAsMap(s: Session, k: string, v: string, other: string, d: string)
    ensures GetSetting(UpdateSetting(s, k, v), k, d) == v
    ensures other != k ==> GetSetting(UpdateSetting(s, k, v), other, d) == GetSetting(s, other, d)
  {
  }

  /** The "AutoSort" setting is on only when it is stored as exactly "1"; absent means off. */
  predicate AutoSortOn(s: Session)
  {
    GetSetting(s, "AutoSort", "0") == "1"
  }

  // ---------------------------------------------------------- vote counting

  function CountWhere(clients: seq<ClientInfo>, p: ClientInfo -> bool): (n: nat)
    ensures n <= |clients|
  {
    if |clients| == 0 then 0
    else CountWhere(clients[..|clients| - 1], p) + (if p(clients[|clients| - 1]) then 1 else 0)
  }

  predicate HasVoteById(votes: seq<Vote>, id: ClientId)
  {
    exists k | 0 <= k < |votes| :: votes[k].clientId == id
  }

  /** The clients that have a vote in `votes` under their id; the name is not compared. */
  function VotedCount(clients: seq<ClientInfo>, votes: seq<Vote>): nat
  {
    CountWhere(clients, (c: ClientInfo) => HasVoteById(votes, c.id))
  }

  /** Clients.All(c => c.Info.IsSpectator): true of an empty list. */
  predicate AllSpectators(clients: seq<ClientInfo>)
  {
    forall k | 0 <= k < |clients| :: clients[k].isSpectator
  }

  /** The clients that are not spectators. */
  function PlayerCount(clients: seq<ClientInfo>): nat
  {
    CountWhere(clients, (c: ClientInfo) => !c.isSpectator)
  }

  /**
   * The test in CheckVoteCount: a round is active and the number of clients
   * with a vote (matched by id) equals the number of non-spectators.
   */
  predicate VotingComplete(s: Session): (complete: bool)
    ensures complete ==> ActiveRound(s.rounds).ActiveAt?
  {
    match ActiveRound(s.rounds)
    case ActiveAt(i) => VotedCount(s.clients, s.rounds[i].votes) == PlayerCount(s.clients)
    case _ => false
  }

  /**
   * CheckVoteCount: when voting is complete every client is told to lock its
   * Undo button and the delayed flip is scheduled.
   */
  function CheckVoteCount(s: Session): (r: (seq<Delivery>, bool))
    requires AtMostOneActive(s.rounds)
    ensures r.1 <==> VotingComplete(s)
    ensures r.1 ==> r.0 == [BroadcastMessage(s.clients, None, Notice("LockUndo"))]
    ensures !r.1 ==> r.0 == []
  {
    if VotingComplete(s) then ([BroadcastMessage(s.clients, None, Notice("LockUndo"))], true)
    else ([], false)
  }

  // ----------------------------------------------------------- operations

  /** CardServer.RemoveClient for the client at index `me`, which is still connected. */
  function RemoveClient(s: Session, me: nat): (r: Outcome)
    requires me < |s.clients|
    ensures r.Threw? <==> !AtMostOneActive(s.rounds)
    ensures r.Done? ==> r.ok
    ensures r.Done? ==> r.state.clients == RemoveAt(s.clients, me)
    ensures r.Done? ==> r.state.admins == RemoveFirst(s.admins, s.clients[me].id)
    ensures r.Done? ==> r.state.deck == s.deck && r.state.settings == s.settings
    ensures r.Done? ==> r.state.adminPassword == s.adminPassword
    ensures r.Done? && ActiveRound(s.rounds) == NoActive ==> r.state.rounds == s.rounds
    ensures r.Done? ==> match ActiveRound(s.rounds)
      case ActiveAt(i) =>
        var c := s.clients[me];
        var kept := s.rounds[i].(votes := VotesNotFrom(s.rounds[i].votes, c.id, c.name));
        if AllSpectators(r.state.clients)
        then r.state.rounds == RemoveAt(s.rounds, i)
        else r.state.rounds == s.rounds[i := kept]
      case _ => true
    ensures r.Done? ==> (r.flipScheduled <==> VotingComplete(r.state))
    ensures r.Done? && r.flipScheduled ==>
      |r.sent| > 0 && r.sent[|r.sent| - 1] == BroadcastMessage(r.state.clients, None, Notice("LockUndo"))
    ensures r.Done? && ActiveRound(s.rounds).ActiveAt? && AllSpectators(r.state.clients) ==>
      |r.sent| >= 2 && r.sent[..2] == [GameState(r.state.clients), BroadcastError(r.state.clients, None, "RoundStopped", false)]
    ensures r.Done? && !(ActiveRound(s.rounds).ActiveAt? && AllSpectators(r.state.clients)) ==>
      r.sent == (if r.flipScheduled then [BroadcastMessage(r.state.clients, None, Notice("LockUndo"))] else [])
  {
    var c := s.clients[me];
    var lookup := ActiveRound(s.rounds);
    if lookup == Ambiguous then Threw(AmbiguousActiveRound)
    else
      var rounds := if lookup.ActiveAt? then
          s.rounds[lookup.index := s.rounds[lookup.index].(votes := VotesNotFrom(s.rounds[lookup.index].votes, c.id, c.name))]
        else s.rounds;
      var s1 := s.(rounds := rounds, admins := RemoveFirst(s.admins, c.id), clients := RemoveAt(s.clients, me));
      assert AtMostOneActive(s1.rounds);
      if AllSpectators(s1.clients) && lookup.ActiveAt? then
        // DiscardActiveRound, then the RoundStopped notice with the origin already nulled
        var s2 := s1.(rounds := RemoveAt(s1.rounds, lookup.index));
        assert ActiveRound(s2.rounds) == NoActive;
        var check := CheckVoteCount(s2);
        Done(s2, true, [GameState(s2.clients), BroadcastError(s2.clients, None, "RoundStopped", false)] + check.0, check.1)
      else
        var check := CheckVoteCount(s1);
        Done(s1, true, check.0, check.1)
  }

  /** CardServer.RegisterAdmin: a correct password appends the client to the admin list. */
  function RegisterAdmin(s: Session, me: nat, pass: string): (r: Outcome)
    requires me < |s.clients|
    ensures r.Done? && r.sent == [] && !r.flipScheduled
    ensures r.ok <==> pass == s.adminPassword
    ensures r.ok ==> r.state == s.(admins := s.admins + [s.clients[me].id])
    ensures !r.ok ==> r.state == s
  {
    if pass == s.adminPassword then Done(s.(admins := s.admins + [s.clients[me].id]), true, [], false)
    else Done(s, false, [], false)
  }

  /** CardServer.BeginNewRound: refused while a round is active, otherwise appends a fresh round. */
  function BeginNewRound(s: Session, title: string): (r: Outcome)
    ensures r.Threw? <==> !AtMostOneActive(s.rounds)
    ensures ActiveRound(s.rounds).ActiveAt? ==> r == Done(s, false, [], false)
    ensures ActiveRound(s.rounds) == NoActive ==>
      && r.Done? && r.ok
      && r.state == s.(rounds := s.rounds + [NewRound(title)])
      && ActiveRound(r.state.rounds) == ActiveAt(|s.rounds|)
  {
    match ActiveRound(s.rounds)
    case Ambiguous => Threw(AmbiguousActiveRound)
    case ActiveAt(_) => Done(s, false, [], false)
    case NoActive =>
      var s' := s.(rounds := s.rounds + [NewRound(title)]);
      assert IsActive(s'.rounds[|s.rounds|]);
      assert forall k | 0 <= k < |s.rounds| :: s'.rounds[k] == s.rounds[k];
      Done(s', true, [GameState(s'.clients)], false)
  }

  /** The guards of CardServer.RegisterVote before the round itself is asked. */
  predicate VoteAdmissible(s: Session, me: nat, value: string)
    requires me < |s.clients|
  {
    match ActiveRound(s.rounds)
    case ActiveAt(i) => !s.rounds[i].flipped && value in s.deck && !s.clients[me].isSpectator
    case _ => false
  }

  /**
   * CardServer.RegisterVote: refused with no active round, a flipped round, a
   * card outside the deck, a spectator, or a second vote from the same
   * (id, name); otherwise appends the vote. Completion is checked whenever the
   * guards pass, even for a refused duplicate.
   */
  function RegisterVote(s: Session, me: nat, value: string): (r: Outcome)
    requires me < |s.clients|
    ensures r.Threw? <==> !AtMostOneActive(s.rounds)
    ensures r.Done? && !r.ok ==> r.state == s
    ensures r.Done? && !VoteAdmissible(s, me, value) ==> r == Done(s, false, [], false)
    ensures r.Done? ==> match ActiveRound(s.rounds)
      case ActiveAt(i) =>
        var c := s.clients[me];
        var v := Vote(c.id, c.name, value);
        && (r.ok <==> VoteAdmissible(s, me, value) && !HasVoteFrom(s.rounds[i].votes, c.id, c.name))
        && (r.ok ==> r.state == s.(rounds := s.rounds[i := s.rounds[i].(votes := s.rounds[i].votes + [v])]))
        && (r.flipScheduled <==> VoteAdmissible(s, me, value) && VotingComplete(r.state))
      case _ => !r.ok
  {
    var c := s.clients[me];
    match ActiveRound(s.rounds)
    case Ambiguous => Threw(AmbiguousActiveRound)
    case NoActive => Done(s, false, [], false)
    case ActiveAt(i) =>
      if !VoteAdmissible(s, me, value) then Done(s, false, [], false)
      else
        var (round, ok) := Rounds.RegisterVote(s.rounds[i], Vote(c.id, c.name, value));
        var s' := s.(rounds := s.rounds[i := round]);
        assert AtMostOneActive(s'.rounds);
        var check := CheckVoteCount(s');
        Done(s', ok, check.0 + (if ok then [GameState(s'.clients)] else []), check.1)
  }

  /**
   * CardServer.UndoVote: allowed only when the caller has a vote in the active
   * round and fewer votes than connected clients (spectators included) exist.
   */
  function UndoVote(s: Session, me: nat): (r: Outcome)
    requires me < |s.clients|
    ensures r.Threw? <==> !AtMostOneActive(s.rounds)
    ensures r.Done? && !r.ok ==> r == Done(s, false, [], false)
    ensures r.Done? ==> !r.flipScheduled
    ensures r.Done? ==> match ActiveRound(s.rounds)
      case ActiveAt(i) =>
        var c := s.clients[me];
        && (r.ok <==> HasVoteFrom(s.rounds[i].votes, c.id, c.name) && |s.rounds[i].votes| < |s.clients|)
        && (r.ok ==> r.state == s.(rounds := s.rounds[i := Rounds.UndoVote(s.rounds[i], c.id, c.name)]))
      case _ => !r.ok
  {
    var c := s.clients[me];
    match ActiveRound(s.rounds)
    case Ambiguous => Threw(AmbiguousActiveRound)
    case NoActive => Done(s, false, [], false)
    case ActiveAt(i) =>
      if !HasVoteFrom(s.rounds[i].votes, c.id, c.name) then Done(s, false, [], false)
      else if |s.rounds[i].votes| >= |s.clients| then Done(s, false, [], false)
      else
        var s' := s.(rounds := s.rounds[i := Rounds.UndoVote(s.rounds[i], c.id, c.name)]);
        Done(s', true, [GameState(s'.clients)], false)
  }

  /**
   * CardServer.SortCards: only for an active, flipped round; reorders its votes
   * by VoteComparer. Sorting two or more votes throws if a value is empty.
   */
  function SortCards(s: Session): (r: Outcome)
    ensures !AtMostOneActive(s.rounds) ==> r.Threw?
    ensures r.Done? && !r.ok ==> r == Done(s, false, [], false)
    ensures r.Done? ==> !r.flipScheduled
    ensures match ActiveRound(s.rounds)
      case ActiveAt(i) =>
        && (r.Threw? <==> s.rounds[i].flipped && |s.rounds[i].votes| >= 2 && !VoteOrder.Sortable(s.rounds[i].votes))
        && (r.Done? ==> (r.ok <==> s.rounds[i].flipped))
        && (r.Done? && r.ok ==>
              |r.state.rounds| == |s.rounds| &&
              var sorted := r.state.rounds[i].votes;
              && r.state == s.(rounds := s.rounds[i := s.rounds[i].(votes := sorted)])
              && multiset(sorted) == multiset(s.rounds[i].votes)
              && VoteOrder.InCompareOrder(sorted))
      case NoActive => r == Done(s, false, [], false)
      case Ambiguous => r.Threw?
  {
    match ActiveRound(s.rounds)
    case Ambiguous => Threw(AmbiguousActiveRound)
    case NoActive => Done(s, false, [], false)
    case ActiveAt(i) =>
      var round := s.rounds[i];
      if !(IsActive(round) && round.flipped) then Done(s, false, [], false)
      else if |round.votes| >= 2 && !VoteOrder.Sortable(round.votes) then Threw(EmptyVoteValue)
      else
        var sorted := if |round.votes| < 2 then round.votes else VoteOrder.SortVotes(round.votes);
        var s' := s.(rounds := s.rounds[i := round.(votes := sorted)]);
        Done(s', true, [GameState(s'.clients)], false)
  }

  /** CardServer.DiscardActiveRound: removes the active round from the history; a no-op without one. */
  function DiscardActiveRound(s: Session): (r: Outcome)
    ensures r.Threw? <==> !AtMostOneActive(s.rounds)
    ensures r.Done? ==> !r.flipScheduled
    ensures ActiveRound(s.rounds) == NoActive ==> r == Done(s, false, [], false)
    ensures match ActiveRound(s.rounds)
      case ActiveAt(i) =>
        && r.Done? && r.ok
        && r.state == s.(rounds := RemoveAt(s.rounds, i))
        && ActiveRound(r.state.rounds) == NoActive
      case _ => true
  {
    match ActiveRound(s.rounds)
    case Ambiguous => Threw(AmbiguousActiveRound)
    case NoActive => Done(s, false, [], false)
    case ActiveAt(i) =>
      var s' := s.(rounds := RemoveAt(s.rounds, i));
      assert ActiveRound(s'.rounds) == NoActive;
      Done(s', true, [GameState(s'.clients)], false)
  }

  /** AutoSortOnFlip, the handler every round's OnCardsFlipped event is wired to. */
  function AutoSortOnFlip(s: Session): (r: Outcome)
    ensures !AutoSortOn(s) ==> r == Done(s, true, [], false)
    ensures AutoSortOn(s) && SortCards(s).Done? ==> r == SortCards(s).(ok := true)
    ensures AutoSortOn(s) && SortCards(s).Threw? ==> r == SortCards(s)
  {
    if AutoSortOn(s) then
      match SortCards(s)
      case Threw(f) => Threw(f)
      case Done(st, _, sent, flip) => Done(st, true, sent, flip)
    else Done(s, true, [], false)
  }

  /** Round.FlipCards on round i followed by its OnCardsFlipped event. */
  function FlipRound(s: Session, i: nat): (r: Outcome)
    requires i < |s.rounds|
    ensures !AutoSortOn(s) ==> r == Done(s.(rounds := s.rounds[i := s.rounds[i].(flipped := true)]), true, [], false)
    ensures r.Done? ==> r.ok && !r.flipScheduled && |r.state.rounds| == |s.rounds|
    ensures r.Done? ==> r.state == s.(rounds := r.state.rounds)
    ensures r.Done? ==> r.state.rounds[i] == s.rounds[i].(flipped := true, votes := r.state.rounds[i].votes)
    ensures r.Done? ==> multiset(r.state.rounds[i].votes) == multiset(s.rounds[i].votes)
    ensures r.Done? ==> forall k | 0 <= k < |s.rounds| && k != i ::
      && r.state.rounds[k] == s.rounds[k].(votes := r.state.rounds[k].votes)
      && multiset(r.state.rounds[k].votes) == multiset(s.rounds[k].votes)
  {
    var flipped := s.(rounds := s.rounds[i := Rounds.FlipCards(s.rounds[i])]);
    assert flipped.settings == s.settings && |flipped.rounds| == |s.rounds|;
    assert flipped.rounds[i] == s.rounds[i].(flipped := true);
    AutoSortKeepsShape(flipped);
    var r := AutoSortOnFlip(flipped);
    assert r.Done? ==> r.state.rounds[i] == flipped.rounds[i].(votes := r.state.rounds[i].votes);
    r
  }

  /** Sorting on flip touches only the votes of the active round, and keeps them as a multiset. */
  lemma AutoSortKeepsShape(s: Session)
    ensures var r := AutoSortOnFlip(s);
      r.Done? ==>
        && r.ok && !r.flipScheduled && |r.state.rounds| == |s.rounds|
        && r.state == s.(rounds := r.state.rounds)
        && forall k | 0 <= k < |s.rounds| ::
             && r.state.rounds[k] == s.rounds[k].(votes := r.state.rounds[k].votes)
             && multiset(r.state.rounds[k].votes) == multiset(s.rounds[k].votes)
  {
    var r := AutoSortOnFlip(s);
    if AutoSortOn(s) && r.Done? {
      match ActiveRound(s.rounds)
      case ActiveAt(j) =>
        assert SortCards(s).Done?;
      case NoActive =>
      case Ambiguous =>
    }
  }

  /** FlipRound on round i, then the game state to everyone, as the delayed flip does it. */
  function FlipAndBroadcast(s: Session, i: nat): (r: Outcome)
    requires i < |s.rounds|
    ensures FlipRound(s, i).Threw? <==> r.Threw?
    ensures r.Done? ==> r.ok && r.state == FlipRound(s, i).state
    ensures r.Done? ==> r.sent == FlipRound(s, i).sent + [GameState(r.state.clients)]
  {
    match FlipRound(s, i)
    case Threw(f) => Threw(f)
    case Done(st, _, sent, flip) => Done(st, true, sent + [GameState(st.clients)], flip)
  }

  /**
   * The thread CheckVoteCount starts, as written: a second later it flips
   * whatever ActiveRound is by then, without checking that there is one.
   */
  function DelayedFlipAsWritten(s: Session): (r: Outcome)
    ensures ActiveRound(s.rounds) == NoActive ==> r == Threw(NoRoundToFlip)
    ensures ActiveRound(s.rounds) == Ambiguous ==> r == Threw(AmbiguousActiveRound)
    ensures ActiveRound(s.rounds).ActiveAt? ==> r == FlipAndBroadcast(s, ActiveRound(s.rounds).index)
  {
    match ActiveRound(s.rounds)
    case Ambiguous => Threw(AmbiguousActiveRound)
    case NoActive => Threw(NoRoundToFlip)
    case ActiveAt(i) => FlipAndBroadcast(s, i)
  }

  /**
   * The delayed flip with the null check the thread evidently needs: when the
   * round was decided or discarded during the delay nothing happens.
   */
  function DelayedFlip(s: Session): (r: Outcome)
    ensures ActiveRound(s.rounds) == NoActive ==> r == Done(s, false, [], false)
    ensures ActiveRound(s.rounds) != NoActive ==> r == DelayedFlipAsWritten(s)
  {
    match ActiveRound(s.rounds)
    case NoActive => Done(s, false, [], false)
    case _ => DelayedFlipAsWritten(s)
  }
}
