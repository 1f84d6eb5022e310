/** The process-wide card set: the ordered list of tokens a vote may take. */
module CardSets {
  import Strings

  /** The deck CardSet.Default starts with. */
  const Default: seq<string> := ["½", "1", "2", "3", "5", "8", "13", "20", "30", "50", "100", "?"]

  /** Cards that survive a round trip through the comma-separated forms. */
  predicate PlainCard(card: string)
  {
    !Strings.IsBlank(card) && ',' !in card && Strings.Unpadded(card)
  }

  /** The default deck: twelve distinct, plain tokens in the listed order. */
  lemma DefaultDeckShape()
    ensures |Default| == 12
    ensures forall i, j | 0 <= i < j < |Default| :: Default[i] != Default[j]
    ensures forall i | 0 <= i < |Default| :: PlainCard(Default[i])
    ensures Default[0] == "½" && Default[11] == "?"
  {
    assert !Strings.IsWhiteSpace('½') && !Strings.IsWhiteSpace('?');
    forall i | 0 <= i < |Default|
      ensures PlainCard(Default[i])
    {
      var c := Default[i];
      assert !Strings.IsWhiteSpace(c[0]);
    }
  }

  /** CardSet.ToString(): the cards joined with ",". */
  function ToString(cards: seq<string>): (text: string)
    ensures |cards| >= 1 && (forall i | 0 <= i < |cards| :: ',' !in cards[i])
            ==> Strings.Split(text, ',') == cards
  {
    if |cards| >= 1 && (forall i | 0 <= i < |cards| :: ',' !in cards[i]) then
      Strings.SplitJoin(cards, ',');
      Strings.Join(",", cards)
    else
      Strings.Join(",", cards)
  }

  /** CardSet.ToHumanString(): the cards joined with ", ". */
  function ToHumanString(cards: seq<string>): (text: string)
    ensures |cards| >= 1 && (forall i | 0 <= i < |cards| :: ',' !in cards[i])
            ==> Strings.Split(text, ',') == [cards[0]] + Strings.Prefixed(" ", cards[1..])
  {
    if |cards| >= 1 && (forall i | 0 <= i < |cards| :: ',' !in cards[i]) then
      Strings.SplitJoinSpaced(cards, ',');
      Strings.Join(", ", cards)
    else
      Strings.Join(", ", cards)
  }

  /** Both renderings list the same cards; the human one only adds a space after each comma. */
  lemma {:induction false} HumanStringAddsSpaces(cards: seq<string>)
    ensures |ToHumanString(cards)| == |ToString(cards)| + (if |cards| == 0 then 0 else |cards| - 1)
    decreases |cards|
  {
    if |cards| > 1 {
      HumanStringAddsSpaces(cards[1..]);
    }
  }

  /** CardSet.ApplyNewCards: the given list becomes the deck as it is, unchecked. */
  function ApplyNewCards(cardList: seq<string>): (deck: seq<string>)
    ensures deck == cardList
  {
    cardList
  }
}
