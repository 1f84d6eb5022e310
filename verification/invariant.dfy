/**
 * The session invariant the server's operations keep: at most one round is
 * undecided, votes are well formed, client ids are distinct, the deck has at
 * least two usable cards, and every client's admin flag agrees with the
 * admin list.
 */
module SessionInvariant {
  import opened Wrappers
  import Strings
  import CardSets
  import opened Rounds
  import VoteOrder
  import opened CardServer

  /** At least two cards, none blank: what SetCards admits and the default deck satisfies. */
  predicate DeckOk(deck: seq<string>)
  {
    |deck| >= 2 && forall k | 0 <= k < |deck| :: !Strings.IsBlank(deck[k])
  }

  /** Votes carry a card, no voter appears twice, and a decided round holds no votes. */
  predicate RoundOk(r: Round)
  {
    && (forall k | 0 <= k < |r.votes| :: |r.votes[k].value| > 0)
    && DistinctVoters(r.votes)
    && (IsActive(r) || r.votes == [])
  }

  predicate RoundsOk(rounds: seq<Round>)
  {
    AtMostOneActive(rounds) && forall k | 0 <= k < |rounds| :: RoundOk(rounds[k])
  }

  predicate DistinctIds(clients: seq<ClientInfo>)
  {
    forall i, j | 0 <= i < j < |clients| :: clients[i].id != clients[j].id
  }

  /** The IsAdmin flag shown in the client list matches membership of the admin list. */
  predicate AdminFlagsAgree(clients: seq<ClientInfo>, admins: seq<ClientId>)
  {
    forall k | 0 <= k < |clients| :: clients[k].isAdmin <==> clients[k].id in admins
  }

  predicate Valid(s: Session)
  {
    RoundsOk(s.rounds) && DistinctIds(s.clients) && DeckOk(s.deck) && AdminFlagsAgree(s.clients, s.admins)
  }

  lemma InitValid(adminPassword: string)
    ensures Valid(Init(adminPassword))
  {
    CardSets.DefaultDeckShape();
  }

  /** A card of a valid deck is never empty, so neither is a vote cast with it. */
  lemma DeckCardsNonEmpty(deck: seq<string>, card: string)
    requires DeckOk(deck) && card in deck
    ensures |card| > 0
  {
    var k :| 0 <= k < |deck| && deck[k] == card;
    assert !Strings.IsBlank(deck[k]);
  }

  /** Replacing one round by a well-formed one that is active only if the old one was keeps the rounds valid. */
  lemma ReplaceRound(rounds: seq<Round>, i: nat, r: Round)
    requires RoundsOk(rounds) && i < |rounds| && RoundOk(r)
    requires IsActive(r) ==> IsActive(rounds[i])
    ensures RoundsOk(rounds[i := r])
  {
  }

  /** Keeping a subset of an active round's votes, voters still distinct, keeps it well formed. */
  lemma KeepSomeVotes(r: Round, votes: seq<Vote>)
    requires RoundOk(r) && IsActive(r)
    requires forall v | v in votes :: v in r.votes
    requires DistinctVoters(votes)
    ensures RoundOk(r.(votes := votes))
  {
    forall k | 0 <= k < |votes|
      ensures |votes[k].value| > 0
    {
      assert votes[k] in r.votes;
    }
  }

  lemma RemoveRound(rounds: seq<Round>, i: nat)
    requires RoundsOk(rounds) && i < |rounds|
    ensures RoundsOk(RemoveAt(rounds, i))
  {
    var r := RemoveAt(rounds, i);
    forall a, b | 0 <= a < |r| && 0 <= b < |r| && IsActive(r[a]) && IsActive(r[b])
      ensures a == b
    {
      var a' := if a < i then a else a + 1;
      var b' := if b < i then b else b + 1;
      assert r[a] == rounds[a'] && r[b] == rounds[b'];
    }
  }

  // ------------------------------------------------ the server operations

  /** Removing the client at `me` keeps ids distinct and admin flags in step with the admin list. */
  lemma RemoveClientKeepsRegistry(s: Session, me: nat)
    requires Valid(s) && me < |s.clients|
    ensures DistinctIds(RemoveAt(s.clients, me))
    ensures AdminFlagsAgree(RemoveAt(s.clients, me), RemoveFirst(s.admins, s.clients[me].id))
  {
    var c := s.clients[me];
    var clients := RemoveAt(s.clients, me);
    var admins := RemoveFirst(s.admins, c.id);
    forall a, b | 0 <= a < b < |clients|
      ensures clients[a].id != clients[b].id
    {
      var a' := if a < me then a else a + 1;
      var b' := if b < me then b else b + 1;
      assert clients[a] == s.clients[a'] && clients[b] == s.clients[b'];
    }
    forall k | 0 <= k < |clients|
      ensures clients[k].isAdmin <==> clients[k].id in admins
    {
      var k' := if k < me then k else k + 1;
      assert clients[k] == s.clients[k'] && k' != me;
      assert clients[k].id != c.id;
    }
  }

  /** Dropping a client's votes from the active round, and perhaps the round itself, keeps the rounds valid. */
  lemma RemoveClientKeepsRounds(s: Session, me: nat)
    requires Valid(s) && me < |s.clients|
    ensures RoundsOk(RemoveClient(s, me).state.rounds)
  {
    var c := s.clients[me];
    if ActiveRound(s.rounds).ActiveAt? {
      var i := ActiveRound(s.rounds).index;
      var kept := s.rounds[i].(votes := VotesNotFrom(s.rounds[i].votes, c.id, c.name));
      KeepSomeVotes(s.rounds[i], kept.votes);
      ReplaceRound(s.rounds, i, kept);
      RemoveRound(s.rounds, i);
    }
  }

  lemma RemoveClientKeepsValid(s: Session, me: nat)
    requires Valid(s) && me < |s.clients|
    ensures RemoveClient(s, me).Done? && Valid(RemoveClient(s, me).state)
  {
    RemoveClientKeepsRegistry(s, me);
    RemoveClientKeepsRounds(s, me);
  }

  lemma BeginNewRoundKeepsValid(s: Session, title: string)
    requires Valid(s)
    ensures BeginNewRound(s, title).Done? && Valid(BeginNewRound(s, title).state)
  {
    var rounds := s.rounds + [NewRound(title)];
    assert forall k | 0 <= k < |s.rounds| :: rounds[k] == s.rounds[k];
  }

  lemma RegisterVoteKeepsValid(s: Session, me: nat, value: string)
    requires Valid(s) && me < |s.clients|
    ensures CardServer.RegisterVote(s, me, value).Done? && Valid(CardServer.RegisterVote(s, me, value).state)
  {
    var r := CardServer.RegisterVote(s, me, value);
    if r.ok {
      var i := ActiveRound(s.rounds).index;
      var c := s.clients[me];
      var v := Vote(c.id, c.name, value);
      DeckCardsNonEmpty(s.deck, value);
      RegisterKeepsVotersDistinct(s.rounds[i], v);
      var round := s.rounds[i].(votes := s.rounds[i].votes + [v]);
      assert RoundOk(round);
      ReplaceRound(s.rounds, i, round);
    }
  }

  lemma UndoVoteKeepsValid(s: Session, me: nat)
    requires Valid(s) && me < |s.clients|
    ensures CardServer.UndoVote(s, me).Done? && Valid(CardServer.UndoVote(s, me).state)
  {
    var r := CardServer.UndoVote(s, me);
    if r.ok {
      var i := ActiveRound(s.rounds).index;
      var c := s.clients[me];
      var round := Rounds.UndoVote(s.rounds[i], c.id, c.name);
      KeepSomeVotes(s.rounds[i], round.votes);
      ReplaceRound(s.rounds, i, round);
    }
  }

  lemma SortCardsKeepsValid(s: Session)
    requires Valid(s)
    ensures SortCards(s).Done? && Valid(SortCards(s).state)
  {
    if ActiveRound(s.rounds).ActiveAt? {
      var i := ActiveRound(s.rounds).index;
      var votes := s.rounds[i].votes;
      assert VoteOrder.Sortable(votes);
      if s.rounds[i].flipped && |votes| >= 2 {
        var sorted := VoteOrder.SortVotes(votes);
        VoteOrder.SortKeepsVotersDistinct(votes);
        assert forall v | v in sorted :: v in multiset(votes);
        KeepSomeVotes(s.rounds[i], sorted);
        ReplaceRound(s.rounds, i, s.rounds[i].(votes := sorted));
      }
    }
  }

  lemma DiscardActiveRoundKeepsValid(s: Session)
    requires Valid(s)
    ensures DiscardActiveRound(s).Done? && Valid(DiscardActiveRound(s).state)
  {
    if ActiveRound(s.rounds).ActiveAt? {
      RemoveRound(s.rounds, ActiveRound(s.rounds).index);
    }
  }

  lemma FlipRoundKeepsValid(s: Session, i: nat)
    requires Valid(s) && i < |s.rounds|
    ensures FlipRound(s, i).Done? && Valid(FlipRound(s, i).state)
  {
    var flipped := s.(rounds := s.rounds[i := Rounds.FlipCards(s.rounds[i])]);
    ReplaceRound(s.rounds, i, Rounds.FlipCards(s.rounds[i]));
    if AutoSortOn(flipped) {
      SortCardsKeepsValid(flipped);
    }
  }

  /** The corrected delayed flip never throws on a valid session and keeps it valid. */
  lemma DelayedFlipKeepsValid(s: Session)
    requires Valid(s)
    ensures DelayedFlip(s).Done? && Valid(DelayedFlip(s).state)
  {
    if ActiveRound(s.rounds).ActiveAt? {
      FlipRoundKeepsValid(s, ActiveRound(s.rounds).index);
    }
  }

  /**
   * The delayed flip as written keeps a valid session valid whenever a round
   * is still active, and throws exactly when none is.
   */
  lemma DelayedFlipAsWrittenKeepsValid(s: Session)
    requires Valid(s)
    ensures ActiveRound(s.rounds) == NoActive <==> DelayedFlipAsWritten(s).Threw?
    ensures DelayedFlipAsWritten(s).Threw? ==> DelayedFlipAsWritten(s) == Threw(NoRoundToFlip)
    ensures DelayedFlipAsWritten(s).Done? ==> Valid(DelayedFlipAsWritten(s).state)
  {
    if ActiveRound(s.rounds).ActiveAt? {
      FlipRoundKeepsValid(s, ActiveRound(s.rounds).index);
    }
  }

  /**
   * The flip scheduled by a completed vote can find no round: an admin who
   * discards the round within the second makes the written thread throw.
   */
  lemma DelayedFlipAfterDiscardThrows(s: Session)
    requires Valid(s) && VotingComplete(s)
    ensures CheckVoteCount(s).1
    ensures DiscardActiveRound(s).Done?
    ensures DelayedFlipAsWritten(DiscardActiveRound(s).state) == Threw(NoRoundToFlip)
    ensures DelayedFlip(DiscardActiveRound(s).state) == Done(DiscardActiveRound(s).state, false, [], false)
  {
  }

  /** A valid session in which the one player has voted, so the flip is scheduled. */
  lemma VotingCanComplete()
    ensures var player := ClientInfo("a", Some("Ann"), false, false);
            var s := Session([player], [], [Round("t", [Vote("a", Some("Ann"), "5")], false, "")],
                             map[], "pw", CardSets.Default);
            Valid(s) && VotingComplete(s)
  {
    var player := ClientInfo("a", Some("Ann"), false, false);
    var votes := [Vote("a", Some("Ann"), "5")];
    var s := Session([player], [], [Round("t", votes, false, "")], map[], "pw", CardSets.Default);
    CardSets.DefaultDeckShape();
    assert ActiveRound(s.rounds) == ActiveAt(0);
    assert HasVoteById(votes, "a") by { assert votes[0].clientId == "a"; }
    assert VotedCount(s.clients, votes) == 1 by {
      assert s.clients[..0] == [];
    }
    assert PlayerCount(s.clients) == 1 by {
      assert s.clients[..0] == [];
    }
  }

  /** After DiscardActiveRound a new round can always begin. */
  lemma DiscardThenBegin(s: Session, title: string)
    requires AtMostOneActive(s.rounds)
    ensures DiscardActiveRound(s).Done?
    ensures BeginNewRound(DiscardActiveRound(s).state, title).Done?
    ensures BeginNewRound(DiscardActiveRound(s).state, title).ok
  {
  }

  /** Counting a stronger property gives no more, and the same only when the two agree on every element. */
  lemma {:induction false} CountStronger(xs: seq<ClientInfo>, p: ClientInfo -> bool, q: ClientInfo -> bool)
    requires forall k | 0 <= k < |xs| :: p(xs[k]) ==> q(xs[k])
    ensures CountWhere(xs, p) <= CountWhere(xs, q)
    ensures CountWhere(xs, p) == CountWhere(xs, q) <==> forall k | 0 <= k < |xs| :: q(xs[k]) ==> p(xs[k])
    decreases |xs|
  {
    if |xs| > 0 {
      var front := xs[..|xs| - 1];
      assert forall k | 0 <= k < |front| :: front[k] == xs[k];
      CountStronger(front, p, q);
    }
  }

  /**
   * When no spectator has a vote in the active round, the completion test
   * holds exactly when every player has voted.
   */
  lemma CompleteIffPlayersVoted(s: Session)
    requires ActiveRound(s.rounds).ActiveAt?
    requires var votes := s.rounds[ActiveRound(s.rounds).index].votes;
             forall k | 0 <= k < |s.clients| :: s.clients[k].isSpectator ==> !HasVoteById(votes, s.clients[k].id)
    ensures var votes := s.rounds[ActiveRound(s.rounds).index].votes;
            VotingComplete(s) <==>
              forall k | 0 <= k < |s.clients| :: !s.clients[k].isSpectator ==> HasVoteById(votes, s.clients[k].id)
  {
    var votes := s.rounds[ActiveRound(s.rounds).index].votes;
    CountStronger(s.clients, (c: ClientInfo) => HasVoteById(votes, c.id), (c: ClientInfo) => !c.isSpectator);
  }

  /**
   * Votes are matched to clients by id only, so a vote left by a client who
   * has since become a spectator counts: here the one player has not voted
   * and the test already holds.
   */
  lemma SpectatorVoteCompletesEarly()
    ensures var s := Session([ClientInfo("p", Some("Pat"), false, false), ClientInfo("q", Some("Quinn"), false, true)],
                             [], [Round("t", [Vote("q", Some("Quinn"), "5")], false, "")], map[], "pw", CardSets.Default);
            Valid(s) && VotingComplete(s) && !HasVoteById(s.rounds[0].votes, "p")
  {
    var pat := ClientInfo("p", Some("Pat"), false, false);
    var quinn := ClientInfo("q", Some("Quinn"), false, true);
    var votes := [Vote("q", Some("Quinn"), "5")];
    var s := Session([pat, quinn], [], [Round("t", votes, false, "")], map[], "pw", CardSets.Default);
    CardSets.DefaultDeckShape();
    assert ActiveRound(s.rounds) == ActiveAt(0);
    assert HasVoteById(votes, "q") by { assert votes[0].clientId == "q"; }
    assert !HasVoteById(votes, "p") by { assert votes[0].clientId != "p"; }
    var voted := (c: ClientInfo) => HasVoteById(votes, c.id);
    var playing := (c: ClientInfo) => !c.isSpectator;
    assert s.clients[..1] == [pat] && [pat][..0] == [];
    assert CountWhere([pat], voted) == 0 && CountWhere(s.clients, voted) == 1;
    assert CountWhere([pat], playing) == 1 && CountWhere(s.clients, playing) == 1;
  }
}
