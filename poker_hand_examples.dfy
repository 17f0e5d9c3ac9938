/**
 * The concrete hands of the hand-comparison tests, and two hands that show what the
 * single-card tie-break does after skipping a pair. Each hand is given by the cards in the
 * order they are added; the hand then holds them sorted (`Hands.Hand.AddCard`), and the
 * lemmas are stated for whatever sorted arrangement of those cards the hand holds.
 */
module PokerHandExamples {
  import opened Options
  import opened Ranks
  import opened Suits
  import Cards
  import Hands
  import PokerRanks
  import PokerHands

  type Card = Cards.Card

  function C(r: Rank, s: Suit): Card {
    Cards.Card(r, s)
  }

  /** A hand holding the cards of `dealt` in card order holds exactly the list `kept`. */
  lemma Kept(h: seq<Card>, dealt: seq<Card>, kept: seq<Card>)
    requires Hands.Sorted(h) && multiset(h) == multiset(dealt)
    requires Hands.Sorted(kept) && multiset(kept) == multiset(dealt)
    ensures h == kept
  {
    Hands.SortedUnique(h, kept);
  }

  /** Five cards whose keys rise from each card to the next are in card order. */
  lemma AscendingFive(cs: seq<Card>)
    requires |cs| == 5
    requires Cards.Key(cs[0]) < Cards.Key(cs[1]) < Cards.Key(cs[2]) < Cards.Key(cs[3]) < Cards.Key(cs[4])
    ensures Hands.Sorted(cs)
  {
    var keys := seq(5, i requires 0 <= i < 5 => Cards.Key(cs[i]));
    Rising(keys);
    forall i, j | 0 <= i < j < |cs| ensures Cards.CompareTo(cs[i], cs[j]) <= 0 {
      assert keys[i] < keys[j];
    }
  }

  lemma Rising(keys: seq<int>)
    requires |keys| == 5 && keys[0] < keys[1] < keys[2] < keys[3] < keys[4]
    ensures forall i, j :: 0 <= i < j < 5 ==> keys[i] < keys[j]
  {
  }

  /** A sorted hand, not all of one suit, whose only equal neighbours are at `i - 1` and `i`, is one pair found at `i`. */
  lemma OnePairAt(cs: seq<Card>, i: int, j: int)
    requires |cs| == PokerHands.FullHand && Hands.Sorted(cs)
    requires 1 <= i < 5 && Hands.PairAt(cs, i) && forall k :: 1 <= k < 5 && k != i ==> !Hands.PairAt(cs, k)
    requires 1 <= j < 5 && cs[j].suit != cs[0].suit
    ensures PokerHands.Category(cs) == Some(PokerRanks.OnePair)
    ensures PokerHands.FirstPair(cs) == Some(cs[i])
  {
    assert !Hands.IsSameSuit(cs);
    assert PokerHands.OnePairShape(cs) by {
      assert Hands.PairAt(cs, 1) <==> i == 1;
      assert Hands.PairAt(cs, 2) <==> i == 2;
      assert Hands.PairAt(cs, 3) <==> i == 3;
      assert Hands.PairAt(cs, 4) <==> i == 4;
    }
    PokerHands.CategoryOfSortedFive(cs);
    Hands.FindPairFindsHighest(cs, 4, i);
  }

  /**
   * A sorted hand without repeats, not all of one suit, whose equal neighbours are exactly at
   * `i - 1, i` and at `j - 1, j`, with `j` two or more below `i`, is two pairs found at `i` and `j`.
   */
  lemma TwoPairsAt(cs: seq<Card>, i: int, j: int, s: int)
    requires |cs| == PokerHands.FullHand && Hands.Sorted(cs) && Hands.Distinct(cs)
    requires 1 <= j && j + 2 <= i < 5 && Hands.PairAt(cs, i) && Hands.PairAt(cs, j)
    requires forall k :: 1 <= k < 5 && k != i && k != j ==> !Hands.PairAt(cs, k)
    requires 1 <= s < 5 && cs[s].suit != cs[0].suit
    ensures PokerHands.Category(cs) == Some(PokerRanks.TwoPairs)
    ensures PokerHands.FirstPair(cs) == Some(cs[i])
    ensures PokerHands.SecondPair(cs) == Some(cs[j])
  {
    assert !Hands.IsSameSuit(cs);
    assert PokerHands.TwoPairShape(cs) by {
      assert Hands.PairAt(cs, 1) <==> i == 1 || j == 1;
      assert Hands.PairAt(cs, 2) <==> i == 2 || j == 2;
      assert Hands.PairAt(cs, 3) <==> i == 3 || j == 3;
      assert Hands.PairAt(cs, 4) <==> i == 4 || j == 4;
    }
    PokerHands.CategoryOfSortedFive(cs);
    Hands.FindPairFindsHighest(cs, 4, i);
    Hands.IndexOfDistinct(cs, i);
    Hands.FindPairFindsHighest(cs, i - 2, j);
  }

  /** One pair of Kings each; the second hand's Six beats the first hand's Five. */
  /** The cards of hand `KingsFiveHigh` in the order they are added: 2H KD KC 5D 7S. */
  const KingsFiveHighDealt := [C(Two, Hearts), C(King, Diamonds), C(King, Clubs), C(Five, Diamonds), C(Seven, Spades)]

  /** Hand `KingsFiveHigh` as it is held, in card order: 2H 5D 7S KD KC. */
  const KingsFiveHigh := [C(Two, Hearts), C(Five, Diamonds), C(Seven, Spades), C(King, Diamonds), C(King, Clubs)]

  lemma KingsFiveHighIsSorted()
    ensures Hands.Sorted(KingsFiveHigh)
  {
    AscendingFive(KingsFiveHigh);
  }

  /** Whatever sorted arrangement a hand keeps of the cards 2H KD KC 5D 7S, it is 2H 5D 7S KD KC. */
  lemma KingsFiveHighSameCards()
    ensures multiset(KingsFiveHigh) == multiset(KingsFiveHighDealt)
  {
  }

  lemma KingsFiveHighHeld(h: seq<Card>)
    requires Hands.Sorted(h) && multiset(h) == multiset(KingsFiveHighDealt)
    ensures h == KingsFiveHigh
  {
    KingsFiveHighIsSorted();
    KingsFiveHighSameCards();
    Kept(h, KingsFiveHighDealt, KingsFiveHigh);
  }

  lemma KingsFiveHighRanked(h: seq<Card>)
    requires h == KingsFiveHigh
    ensures PokerHands.Category(h) == Some(PokerRanks.OnePair)
    ensures PokerHands.FirstPair(h) == Some(h[4])
  {
    KingsFiveHighIsSorted();
    OnePairAt(h, 4, 1);
  }

  /** The cards of hand `KingsSixHigh` in the order they are added: 6S KS 4H KH 7D. */
  const KingsSixHighDealt := [C(Six, Spades), C(King, Spades), C(Four, Hearts), C(King, Hearts), C(Seven, Diamonds)]

  /** Hand `KingsSixHigh` as it is held, in card order: 4H 6S 7D KH KS. */
  const KingsSixHigh := [C(Four, Hearts), C(Six, Spades), C(Seven, Diamonds), C(King, Hearts), C(King, Spades)]

  lemma KingsSixHighIsSorted()
    ensures Hands.Sorted(KingsSixHigh)
  {
    AscendingFive(KingsSixHigh);
  }

  /** Whatever sorted arrangement a hand keeps of the cards 6S KS 4H KH 7D, it is 4H 6S 7D KH KS. */
  lemma KingsSixHighSameCards()
    ensures multiset(KingsSixHigh) == multiset(KingsSixHighDealt)
  {
  }

  lemma KingsSixHighHeld(h: seq<Card>)
    requires Hands.Sorted(h) && multiset(h) == multiset(KingsSixHighDealt)
    ensures h == KingsSixHigh
  {
    KingsSixHighIsSorted();
    KingsSixHighSameCards();
    Kept(h, KingsSixHighDealt, KingsSixHigh);
  }

  lemma KingsSixHighRanked(h: seq<Card>)
    requires h == KingsSixHigh
    ensures PokerHands.Category(h) == Some(PokerRanks.OnePair)
    ensures PokerHands.FirstPair(h) == Some(h[4])
  {
    KingsSixHighIsSorted();
    OnePairAt(h, 4, 1);
  }

  /** The cards of hand `Eights` in the order they are added: 8H JD KC 4D 8S. */
  const EightsDealt := [C(Eight, Hearts), C(Jack, Diamonds), C(King, Clubs), C(Four, Diamonds), C(Eight, Spades)]

  /** Hand `Eights` as it is held, in card order: 4D 8H 8S JD KC. */
  const Eights := [C(Four, Diamonds), C(Eight, Hearts), C(Eight, Spades), C(Jack, Diamonds), C(King, Clubs)]

  lemma EightsIsSorted()
    ensures Hands.Sorted(Eights)
  {
    AscendingFive(Eights);
  }

  /** Whatever sorted arrangement a hand keeps of the cards 8H JD KC 4D 8S, it is 4D 8H 8S JD KC. */
  lemma EightsSameCards()
    ensures multiset(Eights) == multiset(EightsDealt)
  {
  }

  lemma EightsHeld(h: seq<Card>)
    requires Hands.Sorted(h) && multiset(h) == multiset(EightsDealt)
    ensures h == Eights
  {
    EightsIsSorted();
    EightsSameCards();
    Kept(h, EightsDealt, Eights);
  }

  lemma EightsRanked(h: seq<Card>)
    requires h == Eights
    ensures PokerHands.Category(h) == Some(PokerRanks.OnePair)
    ensures PokerHands.FirstPair(h) == Some(h[2])
  {
    EightsIsSorted();
    OnePairAt(h, 2, 1);
  }

  /** The cards of hand `Sixes` in the order they are added: 6S KS 6H 10H 7D. */
  const SixesDealt := [C(Six, Spades), C(King, Spades), C(Six, Hearts), C(Ten, Hearts), C(Seven, Diamonds)]

  /** Hand `Sixes` as it is held, in card order: 6H 6S 7D 10H KS. */
  const Sixes := [C(Six, Hearts), C(Six, Spades), C(Seven, Diamonds), C(Ten, Hearts), C(King, Spades)]

  lemma SixesIsSorted()
    ensures Hands.Sorted(Sixes)
  {
    AscendingFive(Sixes);
  }

  /** Whatever sorted arrangement a hand keeps of the cards 6S KS 6H 10H 7D, it is 6H 6S 7D 10H KS. */
  lemma SixesSameCards()
    ensures multiset(Sixes) == multiset(SixesDealt)
  {
  }

  lemma SixesHeld(h: seq<Card>)
    requires Hands.Sorted(h) && multiset(h) == multiset(SixesDealt)
    ensures h == Sixes
  {
    SixesIsSorted();
    SixesSameCards();
    Kept(h, SixesDealt, Sixes);
  }

  lemma SixesRanked(h: seq<Card>)
    requires h == Sixes
    ensures PokerHands.Category(h) == Some(PokerRanks.OnePair)
    ensures PokerHands.FirstPair(h) == Some(h[1])
  {
    SixesIsSorted();
    OnePairAt(h, 1, 1);
  }

  /** The cards of hand `SixesAceHighClubs` in the order they are added: 6C 9D KC AD 6S. */
  const SixesAceHighClubsDealt := [C(Six, Clubs), C(Nine, Diamonds), C(King, Clubs), C(Ace, Diamonds), C(Six, Spades)]

  /** Hand `SixesAceHighClubs` as it is held, in card order: 6C 6S 9D KC AD. */
  const SixesAceHighClubs := [C(Six, Clubs), C(Six, Spades), C(Nine, Diamonds), C(King, Clubs), C(Ace, Diamonds)]

  lemma SixesAceHighClubsIsSorted()
    ensures Hands.Sorted(SixesAceHighClubs)
  {
    AscendingFive(SixesAceHighClubs);
  }

  /** Whatever sorted arrangement a hand keeps of the cards 6C 9D KC AD 6S, it is 6C 6S 9D KC AD. */
  lemma SixesAceHighClubsSameCards()
    ensures multiset(SixesAceHighClubs) == multiset(SixesAceHighClubsDealt)
  {
  }

  lemma SixesAceHighClubsHeld(h: seq<Card>)
    requires Hands.Sorted(h) && multiset(h) == multiset(SixesAceHighClubsDealt)
    ensures h == SixesAceHighClubs
  {
    SixesAceHighClubsIsSorted();
    SixesAceHighClubsSameCards();
    Kept(h, SixesAceHighClubsDealt, SixesAceHighClubs);
  }

  lemma SixesAceHighClubsRanked(h: seq<Card>)
    requires h == SixesAceHighClubs
    ensures PokerHands.Category(h) == Some(PokerRanks.OnePair)
    ensures PokerHands.FirstPair(h) == Some(h[1])
  {
    SixesAceHighClubsIsSorted();
    OnePairAt(h, 1, 1);
  }

  /** The cards of hand `SixesAceHighSpades` in the order they are added: AS KS 6H 9H 6D. */
  const SixesAceHighSpadesDealt := [C(Ace, Spades), C(King, Spades), C(Six, Hearts), C(Nine, Hearts), C(Six, Diamonds)]

  /** Hand `SixesAceHighSpades` as it is held, in card order: 6D 6H 9H KS AS. */
  const SixesAceHighSpades := [C(Six, Diamonds), C(Six, Hearts), C(Nine, Hearts), C(King, Spades), C(Ace, Spades)]

  lemma SixesAceHighSpadesIsSorted()
    ensures Hands.Sorted(SixesAceHighSpades)
  {
    AscendingFive(SixesAceHighSpades);
  }

  /** Whatever sorted arrangement a hand keeps of the cards AS KS 6H 9H 6D, it is 6D 6H 9H KS AS. */
  lemma SixesAceHighSpadesSameCards()
    ensures multiset(SixesAceHighSpades) == multiset(SixesAceHighSpadesDealt)
  {
  }

  lemma SixesAceHighSpadesHeld(h: seq<Card>)
    requires Hands.Sorted(h) && multiset(h) == multiset(SixesAceHighSpadesDealt)
    ensures h == SixesAceHighSpades
  {
    SixesAceHighSpadesIsSorted();
    SixesAceHighSpadesSameCards();
    Kept(h, SixesAceHighSpadesDealt, SixesAceHighSpades);
  }

  lemma SixesAceHighSpadesRanked(h: seq<Card>)
    requires h == SixesAceHighSpades
    ensures PokerHands.Category(h) == Some(PokerRanks.OnePair)
    ensures PokerHands.FirstPair(h) == Some(h[1])
  {
    SixesAceHighSpadesIsSorted();
    OnePairAt(h, 1, 1);
  }

  /** The cards of hand `KingsOverFours` in the order they are added: 2H KD KC 4D 4S. */
  const KingsOverFoursDealt := [C(Two, Hearts), C(King, Diamonds), C(King, Clubs), C(Four, Diamonds), C(Four, Spades)]

  /** Hand `KingsOverFours` as it is held, in card order: 2H 4D 4S KD KC. */
  const KingsOverFours := [C(Two, Hearts), C(Four, Diamonds), C(Four, Spades), C(King, Diamonds), C(King, Clubs)]

  lemma KingsOverFoursIsSorted()
    ensures Hands.Sorted(KingsOverFours)
  {
    AscendingFive(KingsOverFours);
  }

  /** Whatever sorted arrangement a hand keeps of the cards 2H KD KC 4D 4S, it is 2H 4D 4S KD KC. */
  lemma KingsOverFoursSameCards()
    ensures multiset(KingsOverFours) == multiset(KingsOverFoursDealt)
  {
  }

  lemma KingsOverFoursHeld(h: seq<Card>)
    requires Hands.Sorted(h) && multiset(h) == multiset(KingsOverFoursDealt)
    ensures h == KingsOverFours
  {
    KingsOverFoursIsSorted();
    KingsOverFoursSameCards();
    Kept(h, KingsOverFoursDealt, KingsOverFours);
  }

  lemma KingsOverFoursIsDistinct()
    ensures Hands.Distinct(KingsOverFours)
  {
  }

  lemma KingsOverFoursRanked(h: seq<Card>)
    requires h == KingsOverFours
    ensures PokerHands.Category(h) == Some(PokerRanks.TwoPairs)
    ensures PokerHands.FirstPair(h) == Some(h[4]) && PokerHands.SecondPair(h) == Some(h[2])
  {
    KingsOverFoursIsSorted();
    KingsOverFoursIsDistinct();
    TwoPairsAt(h, 4, 2, 1);
  }

  /** The cards of hand `KingsOverSevens` in the order they are added: 6S KS 7H KH 7D. */
  const KingsOverSevensDealt := [C(Six, Spades), C(King, Spades), C(Seven, Hearts), C(King, Hearts), C(Seven, Diamonds)]

  /** Hand `KingsOverSevens` as it is held, in card order: 6S 7D 7H KH KS. */
  const KingsOverSevens := [C(Six, Spades), C(Seven, Diamonds), C(Seven, Hearts), C(King, Hearts), C(King, Spades)]

  lemma KingsOverSevensIsSorted()
    ensures Hands.Sorted(KingsOverSevens)
  {
    AscendingFive(KingsOverSevens);
  }

  /** Whatever sorted arrangement a hand keeps of the cards 6S KS 7H KH 7D, it is 6S 7D 7H KH KS. */
  lemma KingsOverSevensSameCards()
    ensures multiset(KingsOverSevens) == multiset(KingsOverSevensDealt)
  {
  }

  lemma KingsOverSevensHeld(h: seq<Card>)
    requires Hands.Sorted(h) && multiset(h) == multiset(KingsOverSevensDealt)
    ensures h == KingsOverSevens
  {
    KingsOverSevensIsSorted();
    KingsOverSevensSameCards();
    Kept(h, KingsOverSevensDealt, KingsOverSevens);
  }

  lemma KingsOverSevensIsDistinct()
    ensures Hands.Distinct(KingsOverSevens)
  {
  }

  lemma KingsOverSevensRanked(h: seq<Card>)
    requires h == KingsOverSevens
    ensures PokerHands.Category(h) == Some(PokerRanks.TwoPairs)
    ensures PokerHands.FirstPair(h) == Some(h[4]) && PokerHands.SecondPair(h) == Some(h[2])
  {
    KingsOverSevensIsSorted();
    KingsOverSevensIsDistinct();
    TwoPairsAt(h, 4, 2, 1);
  }

  /** The cards of hand `JacksOverSixes` in the order they are added: 6H JD KC JC 6S. */
  const JacksOverSixesDealt := [C(Six, Hearts), C(Jack, Diamonds), C(King, Clubs), C(Jack, Clubs), C(Six, Spades)]

  /** Hand `JacksOverSixes` as it is held, in card order: 6H 6S JD JC KC. */
  const JacksOverSixes := [C(Six, Hearts), C(Six, Spades), C(Jack, Diamonds), C(Jack, Clubs), C(King, Clubs)]

  lemma JacksOverSixesIsSorted()
    ensures Hands.Sorted(JacksOverSixes)
  {
    AscendingFive(JacksOverSixes);
  }

  /** Whatever sorted arrangement a hand keeps of the cards 6H JD KC JC 6S, it is 6H 6S JD JC KC. */
  lemma JacksOverSixesSameCards()
    ensures multiset(JacksOverSixes) == multiset(JacksOverSixesDealt)
  {
  }

  lemma JacksOverSixesHeld(h: seq<Card>)
    requires Hands.Sorted(h) && multiset(h) == multiset(JacksOverSixesDealt)
    ensures h == JacksOverSixes
  {
    JacksOverSixesIsSorted();
    JacksOverSixesSameCards();
    Kept(h, JacksOverSixesDealt, JacksOverSixes);
  }

  lemma JacksOverSixesIsDistinct()
    ensures Hands.Distinct(JacksOverSixes)
  {
  }

  lemma JacksOverSixesRanked(h: seq<Card>)
    requires h == JacksOverSixes
    ensures PokerHands.Category(h) == Some(PokerRanks.TwoPairs)
    ensures PokerHands.FirstPair(h) == Some(h[3]) && PokerHands.SecondPair(h) == Some(h[1])
  {
    JacksOverSixesIsSorted();
    JacksOverSixesIsDistinct();
    TwoPairsAt(h, 3, 1, 1);
  }

  /** The cards of hand `TensOverSixes` in the order they are added: 6D KS 6C 10H 10D. */
  const TensOverSixesDealt := [C(Six, Diamonds), C(King, Spades), C(Six, Clubs), C(Ten, Hearts), C(Ten, Diamonds)]

  /** Hand `TensOverSixes` as it is held, in card order: 6D 6C 10D 10H KS. */
  const TensOverSixes := [C(Six, Diamonds), C(Six, Clubs), C(Ten, Diamonds), C(Ten, Hearts), C(King, Spades)]

  lemma TensOverSixesIsSorted()
    ensures Hands.Sorted(TensOverSixes)
  {
    AscendingFive(TensOverSixes);
  }

  /** Whatever sorted arrangement a hand keeps of the cards 6D KS 6C 10H 10D, it is 6D 6C 10D 10H KS. */
  lemma TensOverSixesSameCards()
    ensures multiset(TensOverSixes) == multiset(TensOverSixesDealt)
  {
  }

  lemma TensOverSixesHeld(h: seq<Card>)
    requires Hands.Sorted(h) && multiset(h) == multiset(TensOverSixesDealt)
    ensures h == TensOverSixes
  {
    TensOverSixesIsSorted();
    TensOverSixesSameCards();
    Kept(h, TensOverSixesDealt, TensOverSixes);
  }

  lemma TensOverSixesIsDistinct()
    ensures Hands.Distinct(TensOverSixes)
  {
  }

  lemma TensOverSixesRanked(h: seq<Card>)
    requires h == TensOverSixes
    ensures PokerHands.Category(h) == Some(PokerRanks.TwoPairs)
    ensures PokerHands.FirstPair(h) == Some(h[3]) && PokerHands.SecondPair(h) == Some(h[1])
  {
    TensOverSixesIsSorted();
    TensOverSixesIsDistinct();
    TwoPairsAt(h, 3, 1, 1);
  }

  /** The cards of hand `TensOverSixesClubs` in the order they are added: 6C 10D KC 10C 6S. */
  const TensOverSixesClubsDealt := [C(Six, Clubs), C(Ten, Diamonds), C(King, Clubs), C(Ten, Clubs), C(Six, Spades)]

  /** Hand `TensOverSixesClubs` as it is held, in card order: 6C 6S 10D 10C KC. */
  const TensOverSixesClubs := [C(Six, Clubs), C(Six, Spades), C(Ten, Diamonds), C(Ten, Clubs), C(King, Clubs)]

  lemma TensOverSixesClubsIsSorted()
    ensures Hands.Sorted(TensOverSixesClubs)
  {
    AscendingFive(TensOverSixesClubs);
  }

  /** Whatever sorted arrangement a hand keeps of the cards 6C 10D KC 10C 6S, it is 6C 6S 10D 10C KC. */
  lemma TensOverSixesClubsSameCards()
    ensures multiset(TensOverSixesClubs) == multiset(TensOverSixesClubsDealt)
  {
  }

  lemma TensOverSixesClubsHeld(h: seq<Card>)
    requires Hands.Sorted(h) && multiset(h) == multiset(TensOverSixesClubsDealt)
    ensures h == TensOverSixesClubs
  {
    TensOverSixesClubsIsSorted();
    TensOverSixesClubsSameCards();
    Kept(h, TensOverSixesClubsDealt, TensOverSixesClubs);
  }

  lemma TensOverSixesClubsIsDistinct()
    ensures Hands.Distinct(TensOverSixesClubs)
  {
  }

  lemma TensOverSixesClubsRanked(h: seq<Card>)
    requires h == TensOverSixesClubs
    ensures PokerHands.Category(h) == Some(PokerRanks.TwoPairs)
    ensures PokerHands.FirstPair(h) == Some(h[3]) && PokerHands.SecondPair(h) == Some(h[1])
  {
    TensOverSixesClubsIsSorted();
    TensOverSixesClubsIsDistinct();
    TwoPairsAt(h, 3, 1, 1);
  }

  /** The cards of hand `TensOverSixesSpades` in the order they are added: 10S KS 6H 10H 6D. */
  const TensOverSixesSpadesDealt := [C(Ten, Spades), C(King, Spades), C(Six, Hearts), C(Ten, Hearts), C(Six, Diamonds)]

  /** Hand `TensOverSixesSpades` as it is held, in card order: 6D 6H 10H 10S KS. */
  const TensOverSixesSpades := [C(Six, Diamonds), C(Six, Hearts), C(Ten, Hearts), C(Ten, Spades), C(King, Spades)]

  lemma TensOverSixesSpadesIsSorted()
    ensures Hands.Sorted(TensOverSixesSpades)
  {
    AscendingFive(TensOverSixesSpades);
  }

  /** Whatever sorted arrangement a hand keeps of the cards 10S KS 6H 10H 6D, it is 6D 6H 10H 10S KS. */
  lemma TensOverSixesSpadesSameCards()
    ensures multiset(TensOverSixesSpades) == multiset(TensOverSixesSpadesDealt)
  {
  }

  lemma TensOverSixesSpadesHeld(h: seq<Card>)
    requires Hands.Sorted(h) && multiset(h) == multiset(TensOverSixesSpadesDealt)
    ensures h == TensOverSixesSpades
  {
    TensOverSixesSpadesIsSorted();
    TensOverSixesSpadesSameCards();
    Kept(h, TensOverSixesSpadesDealt, TensOverSixesSpades);
  }

  lemma TensOverSixesSpadesIsDistinct()
    ensures Hands.Distinct(TensOverSixesSpades)
  {
  }

  lemma TensOverSixesSpadesRanked(h: seq<Card>)
    requires h == TensOverSixesSpades
    ensures PokerHands.Category(h) == Some(PokerRanks.TwoPairs)
    ensures PokerHands.FirstPair(h) == Some(h[3]) && PokerHands.SecondPair(h) == Some(h[1])
  {
    TensOverSixesSpadesIsSorted();
    TensOverSixesSpadesIsDistinct();
    TwoPairsAt(h, 3, 1, 1);
  }

  /** Hand `KingsFiveKicker` as it is held, in card order: 2D 3C 5H KD KC. */
  const KingsFiveKicker := [C(Two, Diamonds), C(Three, Clubs), C(Five, Hearts), C(King, Diamonds), C(King, Clubs)]

  lemma KingsFiveKickerIsSorted()
    ensures Hands.Sorted(KingsFiveKicker)
  {
    AscendingFive(KingsFiveKicker);
  }

  lemma KingsFiveKickerRanked(h: seq<Card>)
    requires h == KingsFiveKicker
    ensures PokerHands.Category(h) == Some(PokerRanks.OnePair)
    ensures PokerHands.FirstPair(h) == Some(h[4])
  {
    KingsFiveKickerIsSorted();
    OnePairAt(h, 4, 1);
  }

  /** Hand `KingsFourKicker` as it is held, in card order: 2C 3D 4S KH KS. */
  const KingsFourKicker := [C(Two, Clubs), C(Three, Diamonds), C(Four, Spades), C(King, Hearts), C(King, Spades)]

  lemma KingsFourKickerIsSorted()
    ensures Hands.Sorted(KingsFourKicker)
  {
    AscendingFive(KingsFourKicker);
  }

  lemma KingsFourKickerRanked(h: seq<Card>)
    requires h == KingsFourKicker
    ensures PokerHands.Category(h) == Some(PokerRanks.OnePair)
    ensures PokerHands.FirstPair(h) == Some(h[4])
  {
    KingsFourKickerIsSorted();
    OnePairAt(h, 4, 1);
  }

  /** Hand `KingsAndTwosFiveKicker` as it is held, in card order: 2D 2C 5H KD KC. */
  const KingsAndTwosFiveKicker := [C(Two, Diamonds), C(Two, Clubs), C(Five, Hearts), C(King, Diamonds), C(King, Clubs)]

  lemma KingsAndTwosFiveKickerIsSorted()
    ensures Hands.Sorted(KingsAndTwosFiveKicker)
  {
    AscendingFive(KingsAndTwosFiveKicker);
  }

  lemma KingsAndTwosFiveKickerIsDistinct()
    ensures Hands.Distinct(KingsAndTwosFiveKicker)
  {
  }

  lemma KingsAndTwosFiveKickerRanked(h: seq<Card>)
    requires h == KingsAndTwosFiveKicker
    ensures PokerHands.Category(h) == Some(PokerRanks.TwoPairs)
    ensures PokerHands.FirstPair(h) == Some(h[4]) && PokerHands.SecondPair(h) == Some(h[1])
  {
    KingsAndTwosFiveKickerIsSorted();
    KingsAndTwosFiveKickerIsDistinct();
    TwoPairsAt(h, 4, 1, 2);
  }

  /** Hand `KingsAndTwosFourKicker` as it is held, in card order: 2H 2S 4D KH KS. */
  const KingsAndTwosFourKicker := [C(Two, Hearts), C(Two, Spades), C(Four, Diamonds), C(King, Hearts), C(King, Spades)]

  lemma KingsAndTwosFourKickerIsSorted()
    ensures Hands.Sorted(KingsAndTwosFourKicker)
  {
    AscendingFive(KingsAndTwosFourKicker);
  }

  lemma KingsAndTwosFourKickerIsDistinct()
    ensures Hands.Distinct(KingsAndTwosFourKicker)
  {
  }

  lemma KingsAndTwosFourKickerRanked(h: seq<Card>)
    requires h == KingsAndTwosFourKicker
    ensures PokerHands.Category(h) == Some(PokerRanks.TwoPairs)
    ensures PokerHands.FirstPair(h) == Some(h[4]) && PokerHands.SecondPair(h) == Some(h[1])
  {
    KingsAndTwosFourKickerIsSorted();
    KingsAndTwosFourKickerIsDistinct();
    TwoPairsAt(h, 4, 1, 1);
  }

  lemma OnePairTieBreakLoseSingles(a: seq<Card>, b: seq<Card>)
    requires a == KingsFiveHigh && b == KingsSixHigh
    ensures PokerHands.CompareSingles(a, b, [a[4]], [b[4]]) < 0
  {
    assert PokerHands.SinglesFrom(a, b, [a[4]], [b[4]], 1, 1) < 0;
    assert PokerHands.SinglesFrom(a, b, [a[4]], [b[4]], 4, 4) == PokerHands.SinglesFrom(a, b, [a[4]], [b[4]], 1, 1);
  }

  lemma OnePairTieBreakLoseRanked(a: seq<Card>, b: seq<Card>)
    requires a == KingsFiveHigh && b == KingsSixHigh
    ensures PokerHands.Category(a) == Some(PokerRanks.OnePair) && PokerHands.Category(b) == Some(PokerRanks.OnePair)
    ensures PokerHands.FirstPair(a) == Some(a[4]) && PokerHands.FirstPair(b) == Some(b[4])
    ensures a[4].rank == King && b[4].rank == King
  {
    KingsFiveHighRanked(a);
    KingsSixHighRanked(b);
  }

  lemma OnePairTieBreakLoseCompared(a: seq<Card>, b: seq<Card>)
    requires |a| == PokerHands.FullHand && |b| == PokerHands.FullHand
    requires PokerHands.Category(a) == Some(PokerRanks.OnePair) && PokerHands.Category(b) == Some(PokerRanks.OnePair)
    requires PokerHands.FirstPair(a) == Some(a[4]) && PokerHands.FirstPair(b) == Some(b[4])
    requires a[4].rank == King && b[4].rank == King
    requires PokerHands.CompareSingles(a, b, [a[4]], [b[4]]) < 0
    ensures PokerHands.ComparisonDefined(a, b) && PokerHands.CompareTo(a, b) < 0
  {
    PokerHands.OnePairDecides(a, b);
  }

  /** Pairs of Kings with kickers 7, 5, 2 against 7, 6, 4: the first hand loses on its second single card. */
  lemma OnePairTieBreakLose(a: seq<Card>, b: seq<Card>)
    requires Hands.Sorted(a) && multiset(a) == multiset(KingsFiveHighDealt)
    requires Hands.Sorted(b) && multiset(b) == multiset(KingsSixHighDealt)
    ensures PokerHands.ComparisonDefined(a, b) && PokerHands.CompareTo(a, b) < 0
  {
    KingsFiveHighHeld(a);
    KingsSixHighHeld(b);
    OnePairTieBreakLoseRanked(a, b);
    OnePairTieBreakLoseSingles(a, b);
    OnePairTieBreakLoseCompared(a, b);
  }

  lemma OnePairTieBreakWinRanked(a: seq<Card>, b: seq<Card>)
    requires a == Eights && b == Sixes
    ensures PokerHands.Category(a) == Some(PokerRanks.OnePair) && PokerHands.Category(b) == Some(PokerRanks.OnePair)
    ensures PokerHands.FirstPair(a) == Some(a[2]) && PokerHands.FirstPair(b) == Some(b[1])
    ensures a[2].rank == Eight && b[1].rank == Six
  {
    EightsRanked(a);
    SixesRanked(b);
  }

  lemma OnePairTieBreakWinCompared(a: seq<Card>, b: seq<Card>)
    requires |a| == PokerHands.FullHand && |b| == PokerHands.FullHand
    requires PokerHands.Category(a) == Some(PokerRanks.OnePair) && PokerHands.Category(b) == Some(PokerRanks.OnePair)
    requires PokerHands.FirstPair(a) == Some(a[2]) && PokerHands.FirstPair(b) == Some(b[1])
    requires a[2].rank == Eight && b[1].rank == Six
    ensures PokerHands.ComparisonDefined(a, b) && PokerHands.CompareTo(a, b) > 0
  {
    PokerHands.OnePairDecides(a, b);
  }

  /** A pair of Eights beats a pair of Sixes. */
  lemma OnePairTieBreakWin(a: seq<Card>, b: seq<Card>)
    requires Hands.Sorted(a) && multiset(a) == multiset(EightsDealt)
    requires Hands.Sorted(b) && multiset(b) == multiset(SixesDealt)
    ensures PokerHands.ComparisonDefined(a, b) && PokerHands.CompareTo(a, b) > 0
  {
    EightsHeld(a);
    SixesHeld(b);
    OnePairTieBreakWinRanked(a, b);
    OnePairTieBreakWinCompared(a, b);
  }

  lemma OnePairTieBreakTieSingles(a: seq<Card>, b: seq<Card>)
    requires a == SixesAceHighClubs && b == SixesAceHighSpades
    ensures PokerHands.CompareSingles(a, b, [a[1]], [b[1]]) == 0
  {
    assert PokerHands.SinglesFrom(a, b, [a[1]], [b[1]], 1, 1) == 0;
    assert PokerHands.SinglesFrom(a, b, [a[1]], [b[1]], 4, 4) == PokerHands.SinglesFrom(a, b, [a[1]], [b[1]], 1, 1);
  }

  lemma OnePairTieBreakTieRanked(a: seq<Card>, b: seq<Card>)
    requires a == SixesAceHighClubs && b == SixesAceHighSpades
    ensures PokerHands.Category(a) == Some(PokerRanks.OnePair) && PokerHands.Category(b) == Some(PokerRanks.OnePair)
    ensures PokerHands.FirstPair(a) == Some(a[1]) && PokerHands.FirstPair(b) == Some(b[1])
    ensures a[1].rank == Six && b[1].rank == Six
  {
    SixesAceHighClubsRanked(a);
    SixesAceHighSpadesRanked(b);
  }

  lemma OnePairTieBreakTieCompared(a: seq<Card>, b: seq<Card>)
    requires |a| == PokerHands.FullHand && |b| == PokerHands.FullHand
    requires PokerHands.Category(a) == Some(PokerRanks.OnePair) && PokerHands.Category(b) == Some(PokerRanks.OnePair)
    requires PokerHands.FirstPair(a) == Some(a[1]) && PokerHands.FirstPair(b) == Some(b[1])
    requires a[1].rank == Six && b[1].rank == Six
    requires PokerHands.CompareSingles(a, b, [a[1]], [b[1]]) == 0
    ensures PokerHands.ComparisonDefined(a, b) && PokerHands.CompareTo(a, b) == 0
  {
    PokerHands.OnePairDecides(a, b);
  }

  /** Pairs of Sixes with Ace, King, Nine kickers in both hands: neither hand wins. */
  lemma OnePairTieBreakTie(a: seq<Card>, b: seq<Card>)
    requires Hands.Sorted(a) && multiset(a) == multiset(SixesAceHighClubsDealt)
    requires Hands.Sorted(b) && multiset(b) == multiset(SixesAceHighSpadesDealt)
    ensures PokerHands.ComparisonDefined(a, b) && PokerHands.CompareTo(a, b) == 0
  {
    SixesAceHighClubsHeld(a);
    SixesAceHighSpadesHeld(b);
    OnePairTieBreakTieRanked(a, b);
    OnePairTieBreakTieSingles(a, b);
    OnePairTieBreakTieCompared(a, b);
  }

  lemma TwoPairsTieBreakLoseRanked(a: seq<Card>, b: seq<Card>)
    requires a == KingsOverFours && b == KingsOverSevens
    ensures PokerHands.Category(a) == Some(PokerRanks.TwoPairs) && PokerHands.Category(b) == Some(PokerRanks.TwoPairs)
    ensures PokerHands.FirstPair(a) == Some(a[4]) && PokerHands.FirstPair(b) == Some(b[4])
    ensures PokerHands.SecondPair(a) == Some(a[2]) && PokerHands.SecondPair(b) == Some(b[2])
    ensures a[4].rank == King && b[4].rank == King && a[2].rank == Four && b[2].rank == Seven
  {
    KingsOverFoursRanked(a);
    KingsOverSevensRanked(b);
  }

  lemma TwoPairsTieBreakLoseCompared(a: seq<Card>, b: seq<Card>)
    requires |a| == PokerHands.FullHand && |b| == PokerHands.FullHand
    requires PokerHands.Category(a) == Some(PokerRanks.TwoPairs) && PokerHands.Category(b) == Some(PokerRanks.TwoPairs)
    requires PokerHands.FirstPair(a) == Some(a[4]) && PokerHands.FirstPair(b) == Some(b[4])
    requires PokerHands.SecondPair(a) == Some(a[2]) && PokerHands.SecondPair(b) == Some(b[2])
    requires a[4].rank == King && b[4].rank == King && a[2].rank == Four && b[2].rank == Seven
    ensures PokerHands.ComparisonDefined(a, b) && PokerHands.CompareTo(a, b) < 0
  {
    PokerHands.TwoPairsDecide(a, b);
  }

  /** Kings over Fours loses to Kings over Sevens. */
  lemma TwoPairsTieBreakLose(a: seq<Card>, b: seq<Card>)
    requires Hands.Sorted(a) && multiset(a) == multiset(KingsOverFoursDealt)
    requires Hands.Sorted(b) && multiset(b) == multiset(KingsOverSevensDealt)
    ensures PokerHands.ComparisonDefined(a, b) && PokerHands.CompareTo(a, b) < 0
  {
    KingsOverFoursHeld(a);
    KingsOverSevensHeld(b);
    TwoPairsTieBreakLoseRanked(a, b);
    TwoPairsTieBreakLoseCompared(a, b);
  }

  lemma TwoPairsTieBreakWinRanked(a: seq<Card>, b: seq<Card>)
    requires a == JacksOverSixes && b == TensOverSixes
    ensures PokerHands.Category(a) == Some(PokerRanks.TwoPairs) && PokerHands.Category(b) == Some(PokerRanks.TwoPairs)
    ensures PokerHands.FirstPair(a) == Some(a[3]) && PokerHands.FirstPair(b) == Some(b[3])
    ensures PokerHands.SecondPair(a) == Some(a[1]) && PokerHands.SecondPair(b) == Some(b[1])
    ensures a[3].rank == Jack && b[3].rank == Ten && a[1].rank == Six && b[1].rank == Six
  {
    JacksOverSixesRanked(a);
    TensOverSixesRanked(b);
  }

  lemma TwoPairsTieBreakWinCompared(a: seq<Card>, b: seq<Card>)
    requires |a| == PokerHands.FullHand && |b| == PokerHands.FullHand
    requires PokerHands.Category(a) == Some(PokerRanks.TwoPairs) && PokerHands.Category(b) == Some(PokerRanks.TwoPairs)
    requires PokerHands.FirstPair(a) == Some(a[3]) && PokerHands.FirstPair(b) == Some(b[3])
    requires PokerHands.SecondPair(a) == Some(a[1]) && PokerHands.SecondPair(b) == Some(b[1])
    requires a[3].rank == Jack && b[3].rank == Ten && a[1].rank == Six && b[1].rank == Six
    ensures PokerHands.ComparisonDefined(a, b) && PokerHands.CompareTo(a, b) > 0
  {
    PokerHands.TwoPairsDecide(a, b);
  }

  /** Jacks over Sixes beats Tens over Sixes. */
  lemma TwoPairsTieBreakWin(a: seq<Card>, b: seq<Card>)
    requires Hands.Sorted(a) && multiset(a) == multiset(JacksOverSixesDealt)
    requires Hands.Sorted(b) && multiset(b) == multiset(TensOverSixesDealt)
    ensures PokerHands.ComparisonDefined(a, b) && PokerHands.CompareTo(a, b) > 0
  {
    JacksOverSixesHeld(a);
    TensOverSixesHeld(b);
    TwoPairsTieBreakWinRanked(a, b);
    TwoPairsTieBreakWinCompared(a, b);
  }

  lemma TwoPairsTieBreakTieSingles(a: seq<Card>, b: seq<Card>)
    requires a == TensOverSixesClubs && b == TensOverSixesSpades
    ensures PokerHands.CompareSingles(a, b, [a[3], a[1]], [b[3], b[1]]) == 0
  {
    assert PokerHands.SinglesFrom(a, b, [a[3], a[1]], [b[3], b[1]], 0, 0) == 0;
    assert PokerHands.SinglesFrom(a, b, [a[3], a[1]], [b[3], b[1]], 4, 4) == PokerHands.SinglesFrom(a, b, [a[3], a[1]], [b[3], b[1]], 0, 0);
  }

  lemma TwoPairsTieBreakTieRanked(a: seq<Card>, b: seq<Card>)
    requires a == TensOverSixesClubs && b == TensOverSixesSpades
    ensures PokerHands.Category(a) == Some(PokerRanks.TwoPairs) && PokerHands.Category(b) == Some(PokerRanks.TwoPairs)
    ensures PokerHands.FirstPair(a) == Some(a[3]) && PokerHands.FirstPair(b) == Some(b[3])
    ensures PokerHands.SecondPair(a) == Some(a[1]) && PokerHands.SecondPair(b) == Some(b[1])
    ensures a[3].rank == Ten && b[3].rank == Ten && a[1].rank == Six && b[1].rank == Six
  {
    TensOverSixesClubsRanked(a);
    TensOverSixesSpadesRanked(b);
  }

  lemma TwoPairsTieBreakTieCompared(a: seq<Card>, b: seq<Card>)
    requires |a| == PokerHands.FullHand && |b| == PokerHands.FullHand
    requires PokerHands.Category(a) == Some(PokerRanks.TwoPairs) && PokerHands.Category(b) == Some(PokerRanks.TwoPairs)
    requires PokerHands.FirstPair(a) == Some(a[3]) && PokerHands.FirstPair(b) == Some(b[3])
    requires PokerHands.SecondPair(a) == Some(a[1]) && PokerHands.SecondPair(b) == Some(b[1])
    requires a[3].rank == Ten && b[3].rank == Ten && a[1].rank == Six && b[1].rank == Six
    requires PokerHands.CompareSingles(a, b, [a[3], a[1]], [b[3], b[1]]) == 0
    ensures PokerHands.ComparisonDefined(a, b) && PokerHands.CompareTo(a, b) == 0
  {
    PokerHands.TwoPairsDecide(a, b);
  }

  /** Tens over Sixes with a King in both hands: neither hand wins. */
  lemma TwoPairsTieBreakTie(a: seq<Card>, b: seq<Card>)
    requires Hands.Sorted(a) && multiset(a) == multiset(TensOverSixesClubsDealt)
    requires Hands.Sorted(b) && multiset(b) == multiset(TensOverSixesSpadesDealt)
    ensures PokerHands.ComparisonDefined(a, b) && PokerHands.CompareTo(a, b) == 0
  {
    TensOverSixesClubsHeld(a);
    TensOverSixesSpadesHeld(b);
    TwoPairsTieBreakTieRanked(a, b);
    TwoPairsTieBreakTieSingles(a, b);
    TwoPairsTieBreakTieCompared(a, b);
  }

  lemma OnePairKickerComparedWithItselfSingles(a: seq<Card>, b: seq<Card>)
    requires a == KingsFiveKicker && b == KingsFourKicker
    ensures PokerHands.CompareSingles(a, b, [a[4]], [b[4]]) == 0
  {
    assert PokerHands.SinglesFrom(a, b, [a[4]], [b[4]], 1, 1) == 0;
    assert PokerHands.SinglesFrom(a, b, [a[4]], [b[4]], 4, 4) == PokerHands.SinglesFrom(a, b, [a[4]], [b[4]], 1, 1);
  }

  lemma OnePairKickerComparedWithItselfRanked(a: seq<Card>, b: seq<Card>)
    requires a == KingsFiveKicker && b == KingsFourKicker
    ensures PokerHands.Category(a) == Some(PokerRanks.OnePair) && PokerHands.Category(b) == Some(PokerRanks.OnePair)
    ensures PokerHands.FirstPair(a) == Some(a[4]) && PokerHands.FirstPair(b) == Some(b[4])
    ensures a[4].rank == King && b[4].rank == King
  {
    KingsFiveKickerRanked(a);
    KingsFourKickerRanked(b);
  }

  lemma OnePairKickerComparedWithItselfCompared(a: seq<Card>, b: seq<Card>)
    requires |a| == PokerHands.FullHand && |b| == PokerHands.FullHand
    requires PokerHands.Category(a) == Some(PokerRanks.OnePair) && PokerHands.Category(b) == Some(PokerRanks.OnePair)
    requires PokerHands.FirstPair(a) == Some(a[4]) && PokerHands.FirstPair(b) == Some(b[4])
    requires a[4].rank == King && b[4].rank == King
    requires PokerHands.CompareSingles(a, b, [a[4]], [b[4]]) == 0
    ensures PokerHands.ComparisonDefined(a, b) && PokerHands.CompareTo(a, b) == 0
  {
    PokerHands.OnePairDecides(a, b);
  }

  /**
   * After both pairs of Kings are skipped, the single card of the other hand is read from this
   * hand, so the Five is compared with itself and the other hand's Four is never looked at: a
   * pair of Kings with kickers 5, 3, 2 ties with a pair of Kings with kickers 4, 3, 2.
   */
  lemma OnePairKickerComparedWithItself()
    ensures Hands.Sorted(KingsFiveKicker) && Hands.Sorted(KingsFourKicker) && KingsFiveKicker[2].rank != KingsFourKicker[2].rank
    ensures PokerHands.ComparisonDefined(KingsFiveKicker, KingsFourKicker) && PokerHands.CompareTo(KingsFiveKicker, KingsFourKicker) == 0
  {
    KingsFiveKickerIsSorted();
    KingsFourKickerIsSorted();
    OnePairKickerComparedWithItselfRanked(KingsFiveKicker, KingsFourKicker);
    OnePairKickerComparedWithItselfSingles(KingsFiveKicker, KingsFourKicker);
    OnePairKickerComparedWithItselfCompared(KingsFiveKicker, KingsFourKicker);
  }

  lemma TwoPairsKickerSkippedSingles(a: seq<Card>, b: seq<Card>)
    requires a == KingsAndTwosFiveKicker && b == KingsAndTwosFourKicker
    ensures PokerHands.CompareSingles(a, b, [a[4], a[1]], [b[4], b[1]]) == 0
  {
    assert PokerHands.SinglesFrom(a, b, [a[4], a[1]], [b[4], b[1]], 1, 1) == 0;
    assert PokerHands.SinglesFrom(a, b, [a[4], a[1]], [b[4], b[1]], 4, 4) == PokerHands.SinglesFrom(a, b, [a[4], a[1]], [b[4], b[1]], 1, 1);
  }

  lemma TwoPairsKickerSkippedRanked(a: seq<Card>, b: seq<Card>)
    requires a == KingsAndTwosFiveKicker && b == KingsAndTwosFourKicker
    ensures PokerHands.Category(a) == Some(PokerRanks.TwoPairs) && PokerHands.Category(b) == Some(PokerRanks.TwoPairs)
    ensures PokerHands.FirstPair(a) == Some(a[4]) && PokerHands.FirstPair(b) == Some(b[4])
    ensures PokerHands.SecondPair(a) == Some(a[1]) && PokerHands.SecondPair(b) == Some(b[1])
    ensures a[4].rank == King && b[4].rank == King && a[1].rank == Two && b[1].rank == Two
  {
    KingsAndTwosFiveKickerRanked(a);
    KingsAndTwosFourKickerRanked(b);
  }

  lemma TwoPairsKickerSkippedCompared(a: seq<Card>, b: seq<Card>)
    requires |a| == PokerHands.FullHand && |b| == PokerHands.FullHand
    requires PokerHands.Category(a) == Some(PokerRanks.TwoPairs) && PokerHands.Category(b) == Some(PokerRanks.TwoPairs)
    requires PokerHands.FirstPair(a) == Some(a[4]) && PokerHands.FirstPair(b) == Some(b[4])
    requires PokerHands.SecondPair(a) == Some(a[1]) && PokerHands.SecondPair(b) == Some(b[1])
    requires a[4].rank == King && b[4].rank == King && a[1].rank == Two && b[1].rank == Two
    requires PokerHands.CompareSingles(a, b, [a[4], a[1]], [b[4], b[1]]) == 0
    ensures PokerHands.ComparisonDefined(a, b) && PokerHands.CompareTo(a, b) == 0
  {
    PokerHands.TwoPairsDecide(a, b);
  }

  /**
   * Kings and Twos in both hands: at the top both pairs of Kings are skipped, and the card the
   * other hand offers is read back from this hand, so the Five is compared with itself. The
   * next step skips the pair of Twos and leaves no card, so Kings and Twos with a Five ties
   * with Kings and Twos with a Four.
   */
  lemma TwoPairsKickerSkipped()
    ensures Hands.Sorted(KingsAndTwosFiveKicker) && Hands.Sorted(KingsAndTwosFourKicker) && KingsAndTwosFiveKicker[2].rank != KingsAndTwosFourKicker[2].rank
    ensures PokerHands.ComparisonDefined(KingsAndTwosFiveKicker, KingsAndTwosFourKicker) && PokerHands.CompareTo(KingsAndTwosFiveKicker, KingsAndTwosFourKicker) == 0
  {
    KingsAndTwosFiveKickerIsSorted();
    KingsAndTwosFourKickerIsSorted();
    TwoPairsKickerSkippedRanked(KingsAndTwosFiveKicker, KingsAndTwosFourKicker);
    TwoPairsKickerSkippedSingles(KingsAndTwosFiveKicker, KingsAndTwosFourKicker);
    TwoPairsKickerSkippedCompared(KingsAndTwosFiveKicker, KingsAndTwosFourKicker);
  }

}
