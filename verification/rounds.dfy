/** Votes and rounds, with the operations the Round class offers the server. */
module Rounds {
  import opened Wrappers
  import Strings

  type ClientId = string

  /** One vote: the voter's id, a snapshot of the voter's name (null until registered) and the card. */
  datatype Vote = Vote(clientId: ClientId, clientName: Option<string>, value: string)

  /** A round: its title, the votes cast, whether they are shown, and the decision ("" while open). */
  datatype Round = Round(title: string, votes: seq<Vote>, flipped: bool, decision: string)

  /** The test CardServer.ActiveRound applies: a round is active while its decision is blank. */
  predicate IsActive(r: Round)
  {
    Strings.IsBlank(r.decision)
  }

  /** Vote.EqualsClient: the vote carries this client id and this client name. */
  predicate CastBy(v: Vote, id: ClientId, name: Option<string>)
  {
    v.clientId == id && v.clientName == name
  }

  predicate HasVoteFrom(votes: seq<Vote>, id: ClientId, name: Option<string>)
  {
    exists k | 0 <= k < |votes| :: CastBy(votes[k], id, name)
  }

  /** No two votes of the list share the (id, name) pair. */
  predicate DistinctVoters(votes: seq<Vote>)
  {
    forall i, j | 0 <= i < j < |votes| :: !CastBy(votes[j], votes[i].clientId, votes[i].clientName)
  }

  /** The Round constructor. */
  function NewRound(title: string): (r: Round)
    ensures IsActive(r) && !r.flipped && r.votes == [] && r.title == title
  {
    Round(title, [], false, "")
  }

  /**
   * Round.RegisterVote: refuses a second vote from the same (id, name) pair,
   * otherwise appends the vote.
   */
  function RegisterVote(r: Round, v: Vote): (res: (Round, bool))
    ensures res.1 <==> !HasVoteFrom(r.votes, v.clientId, v.clientName)
    ensures res.1 ==> res.0 == r.(votes := r.votes + [v])
    ensures !res.1 ==> res.0 == r
  {
    if HasVoteFrom(r.votes, v.clientId, v.clientName) then (r, false)
    else (r.(votes := r.votes + [v]), true)
  }

  /** The votes not cast by the (id, name) pair, in their original order. */
  function VotesNotFrom(votes: seq<Vote>, id: ClientId, name: Option<string>): (rest: seq<Vote>)
    ensures |rest| <= |votes|
    ensures forall v :: v in rest <==> v in votes && !CastBy(v, id, name)
    ensures !HasVoteFrom(votes, id, name) ==> rest == votes
    ensures HasVoteFrom(votes, id, name) ==> |rest| < |votes|
    ensures DistinctVoters(votes) ==> DistinctVoters(rest)
  {
    if |votes| == 0 then []
    else
      var prefix := votes[..|votes| - 1];
      var front := VotesNotFrom(prefix, id, name);
      var last := votes[|votes| - 1];
      assert votes == prefix + [last];
      HasVoteFromSnoc(prefix, last, id, name);
      if CastBy(last, id, name) then front
      else
        if DistinctVoters(votes) then
          AppendNewVoter(front, prefix, last);
          front + [last]
        else front + [last]
  }

  /** Appending a vote adds a voter exactly when that vote's voter is the one asked about. */
  lemma HasVoteFromSnoc(prefix: seq<Vote>, last: Vote, id: ClientId, name: Option<string>)
    ensures HasVoteFrom(prefix + [last], id, name) <==> HasVoteFrom(prefix, id, name) || CastBy(last, id, name)
  {
    var all := prefix + [last];
    if HasVoteFrom(prefix, id, name) {
      var k :| 0 <= k < |prefix| && CastBy(prefix[k], id, name);
      assert all[k] == prefix[k];
    }
    if CastBy(last, id, name) {
      assert all[|prefix|] == last;
    }
    if HasVoteFrom(all, id, name) {
      var k :| 0 <= k < |all| && CastBy(all[k], id, name);
      if k < |prefix| { assert all[k] == prefix[k]; }
    }
  }

  /** A vote whose voter comes after a list's voters extends any distinct sub-list of it. */
  lemma AppendNewVoter(front: seq<Vote>, prefix: seq<Vote>, last: Vote)
    requires DistinctVoters(prefix + [last])
    requires forall v | v in front :: v in prefix
    ensures DistinctVoters(prefix)
    ensures DistinctVoters(front) ==> DistinctVoters(front + [last])
  {
    var all := prefix + [last];
    forall i, j | 0 <= i < j < |prefix|
      ensures !CastBy(prefix[j], prefix[i].clientId, prefix[i].clientName)
    {
      assert prefix[i] == all[i] && prefix[j] == all[j];
    }
    forall i | 0 <= i < |front|
      ensures !CastBy(last, front[i].clientId, front[i].clientName)
    {
      assert front[i] in prefix;
      var k :| 0 <= k < |prefix| && prefix[k] == front[i];
      assert all[k] == front[i] && all[|prefix|] == last;
    }
  }

  /** Round.UndoVote: removes every vote the client cast, a no-op when it cast none. */
  function UndoVote(r: Round, id: ClientId, name: Option<string>): (r': Round)
    ensures r' == r.(votes := VotesNotFrom(r.votes, id, name))
    ensures !HasVoteFrom(r'.votes, id, name)
  {
    r.(votes := VotesNotFrom(r.votes, id, name))
  }

  /** Round.DecideVote: records the decision and drops the votes. */
  function DecideVote(r: Round, card: string): (r': Round)
    ensures r' == r.(decision := card, votes := [])
    ensures IsActive(r') <==> Strings.IsBlank(card)
  {
    r.(decision := card, votes := [])
  }

  /** Round.FlipCards, without the OnCardsFlipped event (the server models that). */
  function FlipCards(r: Round): (r': Round)
    ensures r' == r.(flipped := true)
    ensures IsActive(r') <==> IsActive(r)
  {
    r.(flipped := true)
  }

  /** Round.Restart: back to an open round with no votes. */
  function Restart(r: Round): (r': Round)
    ensures r' == NewRound(r.title)
    ensures IsActive(r') && r'.votes == []
  {
    r.(votes := [], flipped := false, decision := "")
  }

  /** Only the first of two votes from the same (id, name) pair is accepted. */
  lemma SecondVoteRejected(r: Round, v: Vote, w: Vote)
    requires RegisterVote(r, v).1
    requires w.clientId == v.clientId && w.clientName == v.clientName
    ensures RegisterVote(RegisterVote(r, v).0, w) == (RegisterVote(r, v).0, false)
  {
    var r1 := RegisterVote(r, v).0;
    assert CastBy(r1.votes[|r1.votes| - 1], w.clientId, w.clientName);
  }

  /** Accepting a vote keeps the (id, name) pairs of the round distinct. */
  lemma RegisterKeepsVotersDistinct(r: Round, v: Vote)
    requires DistinctVoters(r.votes)
    ensures DistinctVoters(RegisterVote(r, v).0.votes)
  {
  }

  /** Undoing a freshly accepted vote gives the round back. */
  lemma UndoAfterRegister(r: Round, v: Vote)
    requires RegisterVote(r, v).1
    ensures UndoVote(RegisterVote(r, v).0, v.clientId, v.clientName) == r
  {
    var vs := r.votes + [v];
    assert vs[..|vs| - 1] == r.votes;
    assert VotesNotFrom(r.votes, v.clientId, v.clientName) == r.votes;
  }

  /** A decision with a non-blank card ends the round: no longer active, no votes kept. */
  lemma DecideEndsRound(r: Round, card: string)
    requires !Strings.IsBlank(card)
    ensures !IsActive(DecideVote(r, card)) && DecideVote(r, card).votes == []
  {
  }

  /** Restart reopens any round: active, hidden and empty, title kept. */
  lemma RestartReopens(r: Round)
    ensures IsActive(Restart(r)) && !Restart(r).flipped && Restart(r).votes == []
    ensures Restart(r).title == r.title
  {
  }
}
