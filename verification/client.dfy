/**
 * Handlers: the socket calls of the Client class, each acting for the client
 * at index `me` of the session's client list.
 */
module Handlers {
  import opened Wrappers
  import Strings
  import CardSets
  import opened Rounds
  import Majority
  import Numbers
  import opened CardServer

  /** Sends `source` back to the caller as a confirmation when `o` succeeded, as an error otherwise. */
  function Reply(o: Outcome, caller: ClientInfo, source: string): (r: Outcome)
    ensures o.Threw? ==> r == o
    ensures o.Done? ==> r.Done? && r.state == o.state && r.ok == o.ok && r.flipScheduled == o.flipScheduled
    ensures o.Done? && o.ok ==> r.sent == o.sent + [SendTo(caller, Notice(source))]
    ensures o.Done? && !o.ok ==> r.sent == o.sent + [SendTo(caller, ErrorReply(source))]
  {
    match o
    case Threw(f) => Threw(f)
    case Done(st, ok, sent, flip) =>
      Done(st, ok, sent + [SendTo(caller, if ok then Notice(source) else ErrorReply(source))], flip)
  }

  /** Client.Disconnected: the server drops the client, then everyone gets the client list. */
  function Disconnected(s: Session, me: nat): (r: Outcome)
    requires me < |s.clients|
    ensures RemoveClient(s, me).Threw? <==> r.Threw?
    ensures r.Done? ==> r.state == RemoveClient(s, me).state
    ensures r.Done? ==> r.sent == RemoveClient(s, me).sent + ClientList(r.state.clients)
  {
    match RemoveClient(s, me)
    case Threw(f) => Threw(f)
    case Done(st, ok, sent, flip) => Done(st, ok, sent + ClientList(st.clients), flip)
  }

  /**
   * Client.RegisterClient: records the name; "1" makes the client a spectator,
   * any other value leaves the flag as it was.
   */
  function RegisterClient(s: Session, me: nat, name: string, spectator: string): (r: Outcome)
    requires me < |s.clients|
    ensures r.Done? && r.ok && !r.flipScheduled
    ensures |r.state.clients| == |s.clients|
    ensures r.state.clients[me].name == Some(name) && r.state.clients[me].id == s.clients[me].id
    ensures r.state.clients[me].isAdmin == s.clients[me].isAdmin
    ensures r.state.clients[me].isSpectator == (spectator == "1" || s.clients[me].isSpectator)
    ensures r.state == s.(clients := s.clients[me := r.state.clients[me]])
    ensures |r.sent| > 0 && r.sent[0] == SendTo(s.clients[me], Notice("RegisterClient"))
  {
    var c := s.clients[me];
    var c' := c.(name := Some(name), isSpectator := if spectator == "1" then true else c.isSpectator);
    var s' := s.(clients := s.clients[me := c']);
    Done(s', true, [SendTo(c, Notice("RegisterClient"))] + ClientList(s'.clients) + [SendTo(c, Notice("GameState"))], false)
  }

  /**
   * Client.SwapSpectator: toggles the flag; when that leaves only spectators
   * during a round, the round is discarded and everyone is told why.
   */
  function SwapSpectator(s: Session, me: nat): (r: Outcome)
    requires me < |s.clients|
    ensures r.Threw? <==> !AtMostOneActive(s.rounds)
    ensures r.Done? ==> r.ok && !r.flipScheduled
    ensures r.Done? ==> r.state.clients == s.clients[me := s.clients[me].(isSpectator := !s.clients[me].isSpectator)]
    ensures r.Done? ==> r.state.admins == s.admins && r.state.deck == s.deck && r.state.settings == s.settings
    ensures r.Done? ==>
      if ActiveRound(s.rounds).ActiveAt? && AllSpectators(r.state.clients)
      then r.state.rounds == RemoveAt(s.rounds, ActiveRound(s.rounds).index)
      else r.state.rounds == s.rounds
  {
    var c := s.clients[me];
    var s1 := s.(clients := s.clients[me := c.(isSpectator := !c.isSpectator)]);
    var before := [SendTo(c, Notice("SpectatorSwap"))] + ClientList(s1.clients);
    match ActiveRound(s1.rounds)
    case Ambiguous => Threw(AmbiguousActiveRound)
    case NoActive => Done(s1, true, before + [GameState(s1.clients)], false)
    case ActiveAt(_) =>
      if AllSpectators(s1.clients) then
        match DiscardActiveRound(s1)
        case Threw(f) => Threw(f)
        case Done(s2, _, sent, _) =>
          Done(s2, true, before + sent + [BroadcastError(s2.clients, None, "RoundStopped", false)], false)
      else Done(s1, true, before + [GameState(s1.clients)], false)
  }

  /** Swapping twice restores every client's flags. */
  lemma SwapSpectatorTwice(s: Session, me: nat)
    requires me < |s.clients|
    requires SwapSpectator(s, me).Done?
    ensures var s1 := SwapSpectator(s, me).state;
            me < |s1.clients| && SwapSpectator(s1, me).Done? ==> SwapSpectator(s1, me).state.clients == s.clients
  {
  }

  /** Client.RegisterAdmin: a correct password raises the admin flag and re-sends the client list. */
  function RegisterAdmin(s: Session, me: nat, pass: string): (r: Outcome)
    requires me < |s.clients|
    ensures r.Done? && !r.flipScheduled
    ensures r.ok <==> pass == s.adminPassword
    ensures r.ok ==> r.state == s.(admins := s.admins + [s.clients[me].id],
                                   clients := s.clients[me := s.clients[me].(isAdmin := true)])
    ensures !r.ok ==> r.state == s && r.sent == [SendTo(s.clients[me], ErrorReply("RegisterAdmin"))]
  {
    var c := s.clients[me];
    var o := CardServer.RegisterAdmin(s, me, pass);
    if o.ok then
      var s' := o.state.(clients := o.state.clients[me := c.(isAdmin := true)]);
      Done(s', true, [SendTo(c, Notice("RegisterAdmin"))] + ClientList(s'.clients), false)
    else Done(s, false, [SendTo(c, ErrorReply("RegisterAdmin"))], false)
  }

  /** Client.RegisterVote: the server's verdict, confirmed or refused to the caller. */
  function RegisterVote(s: Session, me: nat, vote: string): (r: Outcome)
    requires me < |s.clients|
    ensures r.Threw? <==> CardServer.RegisterVote(s, me, vote).Threw?
    ensures r.Done? ==> r.state == CardServer.RegisterVote(s, me, vote).state && r.ok == CardServer.RegisterVote(s, me, vote).ok
    ensures r.Done? ==> |r.sent| > 0 && r.sent[..|r.sent| - 1] == CardServer.RegisterVote(s, me, vote).sent
    ensures r.Done? ==> r.sent[|r.sent| - 1] == SendTo(s.clients[me], if r.ok then Notice("RegisterVote") else ErrorReply("RegisterVote"))
  {
    Reply(CardServer.RegisterVote(s, me, vote), s.clients[me], "RegisterVote")
  }

  /** Client.UndoVote. */
  function UndoVote(s: Session, me: nat): (r: Outcome)
    requires me < |s.clients|
    ensures r.Threw? <==> CardServer.UndoVote(s, me).Threw?
    ensures r.Done? ==> r.state == CardServer.UndoVote(s, me).state && r.ok == CardServer.UndoVote(s, me).ok
    ensures r.Done? ==> |r.sent| > 0 && r.sent[..|r.sent| - 1] == CardServer.UndoVote(s, me).sent
    ensures r.Done? ==> r.sent[|r.sent| - 1] == SendTo(s.clients[me], if r.ok then Notice("UndoVote") else ErrorReply("UndoVote"))
  {
    Reply(CardServer.UndoVote(s, me), s.clients[me], "UndoVote")
  }

  /** Client.NewRoundRequest: only a refusal is reported to the caller. */
  function NewRoundRequest(s: Session, me: nat, title: string): (r: Outcome)
    requires me < |s.clients|
    ensures BeginNewRound(s, title).Threw? <==> r.Threw?
    ensures r.Done? ==> r.state == BeginNewRound(s, title).state && r.ok == BeginNewRound(s, title).ok
    ensures r.Done? && !r.ok ==> r.sent == [SendTo(s.clients[me], ErrorReply("NewRoundRequest"))]
  {
    match BeginNewRound(s, title)
    case Threw(f) => Threw(f)
    case Done(st, ok, sent, flip) =>
      Done(st, ok, if ok then sent else sent + [SendTo(s.clients[me], ErrorReply("NewRoundRequest"))], flip)
  }

  /** The vote values of a round, as the list Utilities.Majority is given. */
  function Ballots(votes: seq<Vote>): (b: seq<Option<string>>)
    ensures |b| == |votes|
    ensures forall k | 0 <= k < |votes| :: b[k] == Some(votes[k].value)
  {
    seq(|votes|, k requires 0 <= k < |votes| => Some(votes[k].value))
  }

  /** A token Majority counts is never blank, so deciding on it closes the round. */
  lemma QualifiedNotBlank(x: string)
    requires Majority.Qualifies(x)
    ensures !Strings.IsBlank(x)
  {
    if x == "½" {
      assert !Strings.IsWhiteSpace(x[0]);
    } else {
      var body := if Majority.SignedDigits(x) then x else x[..|x| - 1];
      assert Majority.SignedDigits(body);
      var k := if body[0] == '-' then 1 else 0;
      assert Numbers.IsDigit(body[k]);
      assert x[k] == body[k];
      assert !Strings.IsWhiteSpace(x[k]);
    }
  }

  /** Round.DecideVote on the one active round: with a non-blank card, no round stays active. */
  function DecideActive(s: Session, i: nat, card: string): (s': Session)
    requires ActiveRound(s.rounds) == ActiveAt(i) && !Strings.IsBlank(card)
    ensures s' == s.(rounds := s.rounds[i := s.rounds[i].(decision := card, votes := [])])
    ensures ActiveRound(s'.rounds) == NoActive
  {
    var s' := s.(rounds := s.rounds[i := DecideVote(s.rounds[i], card)]);
    assert !IsActive(s'.rounds[i]);
    s'
  }

  /**
   * Client.TakeMajority: decides the active round on the plurality vote; with
   * no round, or a tie, the caller gets an error and nothing changes.
   */
  function TakeMajority(s: Session, me: nat): (r: Outcome)
    requires me < |s.clients|
    ensures r.Threw? <==> !AtMostOneActive(s.rounds)
    ensures r.Done? ==> !r.flipScheduled
    ensures r.Done? && !r.ok ==> r == Done(s, false, [SendTo(s.clients[me], ErrorReply("TakeMajority"))], false)
    ensures r.Done? ==> match ActiveRound(s.rounds)
      case ActiveAt(i) =>
        var ballots := Ballots(s.rounds[i].votes);
        && (r.ok <==> exists v :: Majority.IsPlurality(ballots, v))
        && (r.ok ==> |r.state.rounds| == |s.rounds|
                     && r.state == s.(rounds := s.rounds[i := s.rounds[i].(decision := r.state.rounds[i].decision, votes := [])])
                     && Majority.IsPlurality(ballots, r.state.rounds[i].decision)
                     && ActiveRound(r.state.rounds) == NoActive)
      case _ => !r.ok
  {
    var c := s.clients[me];
    match ActiveRound(s.rounds)
    case Ambiguous => Threw(AmbiguousActiveRound)
    case NoActive => Done(s, false, [SendTo(c, ErrorReply("TakeMajority"))], false)
    case ActiveAt(i) =>
      var ballots := Ballots(s.rounds[i].votes);
      Majority.MajorityNoneIffNoPlurality(ballots);
      match Majority.Majority(ballots)
      case None => Done(s, false, [SendTo(c, ErrorReply("TakeMajority"))], false)
      case Some(m) =>
        Majority.MajorityIsPlurality(ballots, m);
        Majority.MajorityComesFromInput(ballots);
        QualifiedNotBlank(m);
        var s' := DecideActive(s, i, m);
        Done(s', true, [SendTo(c, Notice("TakeMajority")), GameState(s'.clients)], false)
  }

  /**
   * Client.FinalizeVote: decides the active round on a card of the deck;
   * no round or a card outside the deck is an error and changes nothing.
   */
  function FinalizeVote(s: Session, me: nat, vote: string): (r: Outcome)
    requires me < |s.clients|
    ensures r.Threw? <==> !AtMostOneActive(s.rounds)
    ensures r.Done? ==> !r.flipScheduled
    ensures r.Done? && !r.ok ==> r == Done(s, false, [SendTo(s.clients[me], ErrorReply("FinalizeVote"))], false)
    ensures r.Done? ==> match ActiveRound(s.rounds)
      case ActiveAt(i) =>
        && (r.ok <==> vote in s.deck)
        && (r.ok ==> r.state == s.(rounds := s.rounds[i := s.rounds[i].(decision := vote, votes := [])]))
      case _ => !r.ok
  {
    var c := s.clients[me];
    match ActiveRound(s.rounds)
    case Ambiguous => Threw(AmbiguousActiveRound)
    case NoActive => Done(s, false, [SendTo(c, ErrorReply("FinalizeVote"))], false)
    case ActiveAt(i) =>
      if vote !in s.deck then Done(s, false, [SendTo(c, ErrorReply("FinalizeVote"))], false)
      else
        var s' := s.(rounds := s.rounds[i := DecideVote(s.rounds[i], vote)]);
        Done(s', true, [SendTo(c, Notice("FinalizeVote")), GameState(s'.clients)], false)
  }

  /** Client.RestartRound: the active round loses its votes and is turned face down again. */
  function RestartRound(s: Session, me: nat): (r: Outcome)
    requires me < |s.clients|
    ensures r.Threw? <==> !AtMostOneActive(s.rounds)
    ensures r.Done? ==> !r.flipScheduled
    ensures r.Done? && !r.ok ==> r == Done(s, false, [SendTo(s.clients[me], ErrorReply("RestartRound"))], false)
    ensures r.Done? ==> match ActiveRound(s.rounds)
      case ActiveAt(i) =>
        r.ok && r.state == s.(rounds := s.rounds[i := s.rounds[i].(votes := [], flipped := false, decision := "")])
      case _ => !r.ok
  {
    var c := s.clients[me];
    match ActiveRound(s.rounds)
    case Ambiguous => Threw(AmbiguousActiveRound)
    case NoActive => Done(s, false, [SendTo(c, ErrorReply("RestartRound"))], false)
    case ActiveAt(i) =>
      var s' := s.(rounds := s.rounds[i := Restart(s.rounds[i])]);
      Done(s', true, [SendTo(c, Notice("RestartRound")), GameState(s'.clients)], false)
  }

  /** Client.FlipCards: only for an active round still face down; flipping may sort. */
  function FlipCards(s: Session, me: nat): (r: Outcome)
    requires me < |s.clients|
    ensures !AtMostOneActive(s.rounds) ==> r.Threw?
    ensures r.Done? ==> !r.flipScheduled
    ensures r.Done? && !r.ok ==> r == Done(s, false, [SendTo(s.clients[me], ErrorReply("FlipCards"))], false)
    ensures match ActiveRound(s.rounds)
      case ActiveAt(i) =>
        && (r.Done? ==> (r.ok <==> !s.rounds[i].flipped))
        && (!s.rounds[i].flipped ==> (r.Threw? <==> FlipRound(s, i).Threw?))
        && (r.Done? && r.ok ==> r.state == FlipRound(s, i).state && r.state.rounds[i].flipped)
      case NoActive => r.Done? && !r.ok
      case Ambiguous => true
  {
    var c := s.clients[me];
    match ActiveRound(s.rounds)
    case Ambiguous => Threw(AmbiguousActiveRound)
    case NoActive => Done(s, false, [SendTo(c, ErrorReply("FlipCards"))], false)
    case ActiveAt(i) =>
      if s.rounds[i].flipped then Done(s, false, [SendTo(c, ErrorReply("FlipCards"))], false)
      else
        match FlipRound(s, i)
        case Threw(f) => Threw(f)
        case Done(st, _, sent, _) =>
          Done(st, true, [SendTo(c, Notice("FlipCards"))] + sent + [GameState(st.clients)], false)
  }

  /** Client.DiscardActiveRound: the server's operation, with no reply of its own. */
  function DiscardRound(s: Session, me: nat): (r: Outcome)
    requires me < |s.clients|
    ensures r.Threw? <==> !AtMostOneActive(s.rounds)
    ensures r.Done? ==> ActiveRound(r.state.rounds) == NoActive && !r.flipScheduled
    ensures r.Done? ==> r.state == s.(rounds := r.state.rounds)
    ensures r.Done? ==> |r.state.rounds| == |s.rounds| - (if r.ok then 1 else 0)
    ensures ActiveRound(s.rounds) == NoActive ==> r == Done(s, false, [], false)
    ensures ActiveRound(s.rounds).ActiveAt? ==>
      && r.Done? && r.ok
      && r.state.rounds == RemoveAt(s.rounds, ActiveRound(s.rounds).index)
      && r.sent == [GameState(r.state.clients)]
  {
    CardServer.DiscardActiveRound(s)
  }

  /** Client.SortCards. */
  function SortCards(s: Session, me: nat): (r: Outcome)
    requires me < |s.clients|
    ensures r.Threw? <==> CardServer.SortCards(s).Threw?
    ensures r.Done? ==> r.state == CardServer.SortCards(s).state && r.ok == CardServer.SortCards(s).ok
    ensures r.Done? ==> |r.sent| > 0 && r.sent[..|r.sent| - 1] == CardServer.SortCards(s).sent
    ensures r.Done? ==> r.sent[|r.sent| - 1] == SendTo(s.clients[me], if r.ok then Notice("SortCards") else ErrorReply("SortCards"))
  {
    Reply(CardServer.SortCards(s), s.clients[me], "SortCards")
  }

  /** Client.GetCardList: the deck, comma-and-space separated, to the caller only. */
  function GetCardList(s: Session, me: nat): (r: Outcome)
    requires me < |s.clients|
    ensures r.Done? && r.ok && r.state == s && !r.flipScheduled
    ensures |r.sent| == 1 && r.sent[0].recipients == [s.clients[me].id] && r.sent[0].message.CardList?
    ensures |s.deck| >= 1 && (forall k | 0 <= k < |s.deck| :: CardSets.PlainCard(s.deck[k])) ==>
              ParseCardList(r.sent[0].message.text) == s.deck
  {
    var r := Done(s, true, [SendTo(s.clients[me], CardList(CardSets.ToHumanString(s.deck)))], false);
    if |s.deck| >= 1 && (forall k | 0 <= k < |s.deck| :: CardSets.PlainCard(s.deck[k])) then
      CardListRoundTrip(s.deck);
      r
    else r
  }

  /** The loop of SetCards: blank pieces are dropped, the others trimmed, order kept. */
  function Clean(pieces: seq<string>): (cards: seq<string>)
    ensures |cards| <= |pieces|
    ensures forall k | 0 <= k < |cards| :: !Strings.IsBlank(cards[k]) && Strings.Unpadded(cards[k])
  {
    if |pieces| == 0 then []
    else
      var rest := Clean(pieces[1..]);
      if Strings.IsBlank(pieces[0]) then rest
      else
        var t := Strings.Trim(pieces[0]);
        assert !Strings.IsBlank(t) by { assert !Strings.IsWhiteSpace(t[0]); }
        [t] + rest
  }

  /** A character no piece contains is in no card Clean returns. */
  lemma {:induction false} CleanKeepsOut(pieces: seq<string>, ch: char)
    requires forall j | 0 <= j < |pieces| :: ch !in pieces[j]
    ensures forall k | 0 <= k < |Clean(pieces)| :: ch !in Clean(pieces)[k]
    decreases |pieces|
  {
    if |pieces| > 0 {
      CleanKeepsOut(pieces[1..], ch);
      Strings.TrimIsInfix(pieces[0]);
    }
  }

  /** The number of pieces that are not blank. */
  function NonBlankCount(pieces: seq<string>): nat
  {
    if |pieces| == 0 then 0
    else (if Strings.IsBlank(pieces[0]) then 0 else 1) + NonBlankCount(pieces[1..])
  }

  /** One step of Clean: a blank first piece is dropped, any other is trimmed and kept in front. */
  lemma CleanStep(pieces: seq<string>)
    requires |pieces| > 0
    ensures Clean(pieces) == (if Strings.IsBlank(pieces[0]) then Clean(pieces[1..])
                              else [Strings.Trim(pieces[0])] + Clean(pieces[1..]))
  {
  }

  /** A non-blank piece in front gives its trimmed form in front. */
  lemma CleanCons(p: string, rest: seq<string>)
    requires !Strings.IsBlank(p)
    ensures Clean([p] + rest) == [Strings.Trim(p)] + Clean(rest)
  {
    assert ([p] + rest)[1..] == rest;
  }

  /** A blank first piece leaves no trace: the cards are those of the rest. */
  lemma CleanSkipsBlank(pieces: seq<string>)
    requires |pieces| > 0 && Strings.IsBlank(pieces[0])
    ensures Clean(pieces) == Clean(pieces[1..])
  {
  }

  /** A non-blank first piece gives the first card; the later cards are those of the rest. */
  lemma CleanKeepsFirst(pieces: seq<string>, k: nat)
    requires |pieces| > 0 && !Strings.IsBlank(pieces[0])
    ensures |Clean(pieces)| == |Clean(pieces[1..])| + 1
    ensures Clean(pieces)[0] == Strings.Trim(pieces[0])
    ensures 0 < k < |Clean(pieces)| ==> Clean(pieces)[k] == Clean(pieces[1..])[k - 1]
  {
    CleanStep(pieces);
  }

  /** Clean keeps one card per non-blank piece and no other. */
  lemma {:induction false} CleanCount(pieces: seq<string>)
    ensures |Clean(pieces)| == NonBlankCount(pieces)
    decreases |pieces|
  {
    if |pieces| > 0 {
      CleanCount(pieces[1..]);
      if Strings.IsBlank(pieces[0]) {
        CleanSkipsBlank(pieces);
      } else {
        CleanKeepsFirst(pieces, 0);
      }
    }
  }

  /**
   * A non-blank piece survives trimmed, at the position given by the
   * non-blank pieces before it: blanks are dropped and the order is kept.
   */
  lemma {:induction false} CleanKeepsPiece(pieces: seq<string>, j: nat)
    requires j < |pieces| && !Strings.IsBlank(pieces[j])
    ensures NonBlankCount(pieces[..j]) < |Clean(pieces)|
    ensures Clean(pieces)[NonBlankCount(pieces[..j])] == Strings.Trim(pieces[j])
    decreases j
  {
    if j == 0 {
      assert pieces[..0] == [];
      CleanKeepsFirst(pieces, 0);
    } else {
      var tail := pieces[1..];
      assert tail[j - 1] == pieces[j];
      CleanKeepsPiece(tail, j - 1);
      var before := pieces[..j];
      assert before[1..] == tail[..j - 1];
      var m := NonBlankCount(tail[..j - 1]);
      if Strings.IsBlank(pieces[0]) {
        assert NonBlankCount(before) == m;
        CleanSkipsBlank(pieces);
      } else {
        assert NonBlankCount(before) == m + 1;
        CleanKeepsFirst(pieces, m + 1);
      }
    }
  }

  /** The k-th non-blank piece (from 0): the one with exactly k non-blank pieces before it. */
  lemma {:induction false} NthNonBlank(pieces: seq<string>, k: nat) returns (j: nat)
    requires k < NonBlankCount(pieces)
    ensures j < |pieces| && !Strings.IsBlank(pieces[j]) && NonBlankCount(pieces[..j]) == k
    decreases |pieces|
  {
    var tail := pieces[1..];
    if !Strings.IsBlank(pieces[0]) && k == 0 {
      j := 0;
      assert pieces[..0] == [];
    } else {
      var k' := if Strings.IsBlank(pieces[0]) then k else k - 1;
      var i := NthNonBlank(tail, k');
      j := i + 1;
      assert pieces[j] == tail[i];
      assert pieces[..j][1..] == tail[..i];
    }
  }

  /** Every card Clean returns is the trimmed form of some non-blank piece. */
  lemma CleanCardFromPiece(pieces: seq<string>, k: nat)
    requires k < |Clean(pieces)|
    ensures exists j | 0 <= j < |pieces| :: !Strings.IsBlank(pieces[j]) && Clean(pieces)[k] == Strings.Trim(pieces[j])
  {
    CleanCount(pieces);
    var j := NthNonBlank(pieces, k);
    CleanKeepsPiece(pieces, j);
  }

  /** The card list SetCards builds from its argument. */
  function ParseCardList(text: string): (cards: seq<string>)
    ensures forall k | 0 <= k < |cards| :: !Strings.IsBlank(cards[k]) && ',' !in cards[k]
    ensures |cards| <= multiset(text)[','] + 1
  {
    var pieces := Strings.Split(text, ',');
    CleanKeepsOut(pieces, ',');
    Clean(pieces)
  }

  /** A plain card after a blank is not blank, and Trim gives the card back. */
  lemma SpacedPlainCard(card: string)
    requires CardSets.PlainCard(card)
    ensures !Strings.IsBlank(" " + card) && Strings.Trim(" " + card) == card
  {
    Strings.TrimLeadingSpace(card);
    assert !Strings.IsWhiteSpace(card[0]);
    assert (" " + card)[1] == card[0];
  }

  /** Clean keeps plain cards as they are and trims the one blank that follows each comma. */
  lemma {:induction false} CleanSpaced(cards: seq<string>)
    requires forall k | 0 <= k < |cards| :: CardSets.PlainCard(cards[k])
    ensures Clean(Strings.Prefixed(" ", cards)) == cards
    decreases |cards|
  {
    if |cards| > 0 {
      CleanSpaced(cards[1..]);
      Strings.PrefixedCons(" ", cards);
      SpacedPlainCard(cards[0]);
      CleanCons(" " + cards[0], Strings.Prefixed(" ", cards[1..]));
      assert cards == [cards[0]] + cards[1..];
    }
  }

  /** What GetCardList shows, sent back through SetCards, gives the same deck. */
  lemma CardListRoundTrip(deck: seq<string>)
    requires |deck| >= 1
    requires forall k | 0 <= k < |deck| :: CardSets.PlainCard(deck[k])
    ensures ParseCardList(CardSets.ToHumanString(deck)) == deck
  {
    var pieces := [deck[0]] + Strings.Prefixed(" ", deck[1..]);
    assert Strings.Split(CardSets.ToHumanString(deck), ',') == pieces;
    CleanSpaced(deck[1..]);
    assert CardSets.PlainCard(deck[0]);
    Strings.TrimUnpadded(deck[0]);
    CleanCons(deck[0], Strings.Prefixed(" ", deck[1..]));
    assert [deck[0]] + deck[1..] == deck;
  }

  /**
   * Client.SetCards as written: the error for an active round is sent, but
   * the method goes on, so the card set is replaced anyway.
   */
  function SetCardsAsWritten(s: Session, me: nat, newCards: string): (r: Outcome)
    requires me < |s.clients|
    ensures r.Threw? <==> !AtMostOneActive(s.rounds)
    ensures r.Done? ==> !r.flipScheduled
    ensures r.Done? ==> (r.ok <==> |ParseCardList(newCards)| >= 2)
    ensures r.Done? && r.ok ==> r.state == s.(deck := ParseCardList(newCards))
    ensures r.Done? && !r.ok ==> r.state == s
    ensures r.Done? && ActiveRound(s.rounds).ActiveAt? ==> |r.sent| > 0 && r.sent[0] == SendTo(s.clients[me], ErrorReply("SetCards"))
  {
    var c := s.clients[me];
    var lookup := ActiveRound(s.rounds);
    if lookup == Ambiguous then Threw(AmbiguousActiveRound)
    else
      var warned := if lookup.ActiveAt? then [SendTo(c, ErrorReply("SetCards"))] else [];
      var cards := ParseCardList(newCards);
      if |cards| < 2 then Done(s, false, warned + [SendTo(c, ErrorReply("SetCards"))], false)
      else
        var s' := s.(deck := CardSets.ApplyNewCards(cards));
        Done(s', true, warned + [GameState(s'.clients), SendTo(c, Notice("SetCards"))], false)
  }

  /**
   * Client.SetCards with the return its first error evidently needs: while a
   * round is active the caller gets one error and nothing changes; otherwise
   * at least two non-blank pieces replace the card set.
   */
  function SetCards(s: Session, me: nat, newCards: string): (r: Outcome)
    requires me < |s.clients|
    ensures r.Threw? <==> !AtMostOneActive(s.rounds)
    ensures r.Done? ==> !r.flipScheduled
    ensures ActiveRound(s.rounds).ActiveAt? ==> r == Done(s, false, [SendTo(s.clients[me], ErrorReply("SetCards"))], false)
    ensures ActiveRound(s.rounds) == NoActive ==> r == SetCardsAsWritten(s, me, newCards)
    ensures r.Done? ==> (r.ok <==> ActiveRound(s.rounds) == NoActive && |ParseCardList(newCards)| >= 2)
    ensures r.Done? && r.ok ==> r.state == s.(deck := ParseCardList(newCards))
    ensures r.Done? && !r.ok ==> r.state == s
  {
    match ActiveRound(s.rounds)
    case ActiveAt(_) => Done(s, false, [SendTo(s.clients[me], ErrorReply("SetCards"))], false)
    case _ => SetCardsAsWritten(s, me, newCards)
  }

  /** With a round open and a usable list, the code as written still swaps the card set. */
  lemma SetCardsDuringRound(s: Session, me: nat, newCards: string)
    requires me < |s.clients| && ActiveRound(s.rounds).ActiveAt?
    requires |ParseCardList(newCards)| >= 2 && ParseCardList(newCards) != s.deck
    ensures SetCardsAsWritten(s, me, newCards).Done? && SetCardsAsWritten(s, me, newCards).ok
    ensures SetCardsAsWritten(s, me, newCards).state.deck != s.deck
    ensures SetCards(s, me, newCards) == Done(s, false, [SendTo(s.clients[me], ErrorReply("SetCards"))], false)
  {
  }

  /** Client.SetSetting: stores the value, silently. */
  function SetSetting(s: Session, me: nat, key: string, value: string): (r: Outcome)
    requires me < |s.clients|
    ensures r.Done? && r.ok && r.sent == [] && !r.flipScheduled
    ensures r.state == s.(settings := r.state.settings)
    ensures GetSetting(r.state, key, "") == value
    ensures forall k | k != key :: GetSetting(r.state, k, "") == GetSetting(s, k, "")
    ensures r.state.settings.Keys == s.settings.Keys + {key}
  {
    Done(UpdateSetting(s, key, value), true, [], false)
  }
}
