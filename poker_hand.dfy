/**
 * The five-card poker evaluator: a hand's category and the order between two hands.
 * The pure definitions work on the hand's card list; the methods at the end run the
 * same scans and loops on `Hands.Hand` objects of capacity five.
 */
module PokerHands {
  import opened Options
  import Ranks
  import Suits
  import Cards
  import opened PokerRanks
  import Hands

  type Card = Cards.Card

  /** The number of cards in a full poker hand. */
  const FullHand: nat := 5

  /**
   * `getPokerRank`: None when the hand is not full; otherwise the first category of the
   * precedence chain whose test the hand passes, with `NoRank` when none does.
   */
  function Category(cs: seq<Card>): (r: Option<PokerRank>)
    ensures r.None? <==> |cs| != FullHand
  {
    if |cs| != FullHand then None
    else
      var consecutive := Hands.IsConsecutive(cs);
      var sameSuit := Hands.IsSameSuit(cs);
      var numSameRank := Hands.PairCount(cs);
      Some(
        if consecutive && sameSuit then StraightFlush
        else if numSameRank == 6 then FourOfAKind
        else if numSameRank == 4 then FullHouse
        else if sameSuit then Flush
        else if consecutive then Straight
        else if numSameRank == 3 then ThreeOfAKind
        else if numSameRank == 2 then TwoPairs
        else if numSameRank == 1 then OnePair
        else NoRank)
  }

  // The rank patterns of a sorted five-card hand, read off which neighbours share a rank.

  /** Four cards of one rank and a fifth of another. */
  predicate FourKindShape(cs: seq<Card>)
    requires |cs| == 5
  {
    var e1, e2, e3, e4 := Hands.PairAt(cs, 1), Hands.PairAt(cs, 2), Hands.PairAt(cs, 3), Hands.PairAt(cs, 4);
    (e1 && e2 && e3 && !e4) || (!e1 && e2 && e3 && e4)
  }

  /** Three cards of one rank and two of another. */
  predicate FullHouseShape(cs: seq<Card>)
    requires |cs| == 5
  {
    var e1, e2, e3, e4 := Hands.PairAt(cs, 1), Hands.PairAt(cs, 2), Hands.PairAt(cs, 3), Hands.PairAt(cs, 4);
    (e1 && e2 && !e3 && e4) || (e1 && !e2 && e3 && e4)
  }

  /** Three cards of one rank and two further ranks. */
  predicate ThreeKindShape(cs: seq<Card>)
    requires |cs| == 5
  {
    var e1, e2, e3, e4 := Hands.PairAt(cs, 1), Hands.PairAt(cs, 2), Hands.PairAt(cs, 3), Hands.PairAt(cs, 4);
    (e1 && e2 && !e3 && !e4) || (!e1 && e2 && e3 && !e4) || (!e1 && !e2 && e3 && e4)
  }

  /** Two pairs of different ranks and a fifth card of a third rank. */
  predicate TwoPairShape(cs: seq<Card>)
    requires |cs| == 5
  {
    var e1, e2, e3, e4 := Hands.PairAt(cs, 1), Hands.PairAt(cs, 2), Hands.PairAt(cs, 3), Hands.PairAt(cs, 4);
    (e1 && !e2 && e3 && !e4) || (e1 && !e2 && !e3 && e4) || (!e1 && e2 && !e3 && e4)
  }

  /** Exactly one pair; the other three ranks all differ. */
  predicate OnePairShape(cs: seq<Card>)
    requires |cs| == 5
  {
    var e1, e2, e3, e4 := Hands.PairAt(cs, 1), Hands.PairAt(cs, 2), Hands.PairAt(cs, 3), Hands.PairAt(cs, 4);
    (e1 && !e2 && !e3 && !e4) || (!e1 && e2 && !e3 && !e4) || (!e1 && !e2 && e3 && !e4) || (!e1 && !e2 && !e3 && e4)
  }

  /** Five different ranks. */
  predicate NoPairShape(cs: seq<Card>)
    requires |cs| == 5
  {
    forall i :: 1 <= i < 5 ==> !Hands.PairAt(cs, i)
  }

  /** All five cards of one rank (impossible with one deck, but not excluded by the hand). */
  predicate FiveKindShape(cs: seq<Card>)
    requires |cs| == 5
  {
    forall i :: 1 <= i < 5 ==> Hands.PairAt(cs, i)
  }

  /** The pair count of five cards, written out as its ten two-way comparisons. */
  lemma {:induction false} PairCountOfFive(cs: seq<Card>)
    requires |cs| == 5
    ensures Hands.PairCount(cs) ==
      Hands.CountEqual(cs, 0, 1) + Hands.CountEqual(cs, 1, 2) + Hands.CountEqual(cs, 2, 3) + Hands.CountEqual(cs, 3, 4)
    ensures Hands.CountEqual(cs, 3, 4) == (if cs[3].rank == cs[4].rank then 1 else 0)
    ensures Hands.CountEqual(cs, 2, 3) ==
      (if cs[2].rank == cs[3].rank then 1 else 0) + (if cs[2].rank == cs[4].rank then 1 else 0)
    ensures Hands.CountEqual(cs, 1, 2) ==
      (if cs[1].rank == cs[2].rank then 1 else 0) + (if cs[1].rank == cs[3].rank then 1 else 0)
      + (if cs[1].rank == cs[4].rank then 1 else 0)
    ensures Hands.CountEqual(cs, 0, 1) ==
      (if cs[0].rank == cs[1].rank then 1 else 0) + (if cs[0].rank == cs[2].rank then 1 else 0)
      + (if cs[0].rank == cs[3].rank then 1 else 0) + (if cs[0].rank == cs[4].rank then 1 else 0)
  {
    assert Hands.PairsFrom(cs, 5) == 0;
    assert Hands.PairsFrom(cs, 4) == Hands.CountEqual(cs, 4, 5) == 0;
    assert Hands.PairsFrom(cs, 3) == Hands.CountEqual(cs, 3, 4);
    assert Hands.PairsFrom(cs, 2) == Hands.CountEqual(cs, 2, 3) + Hands.CountEqual(cs, 3, 4);
    assert Hands.PairsFrom(cs, 1) == Hands.CountEqual(cs, 1, 2) + Hands.PairsFrom(cs, 2);
    assert Hands.PairCount(cs) == Hands.CountEqual(cs, 0, 1) + Hands.PairsFrom(cs, 1);
    assert Hands.CountEqual(cs, 3, 5) == 0 && Hands.CountEqual(cs, 2, 5) == 0;
    assert Hands.CountEqual(cs, 1, 5) == 0 && Hands.CountEqual(cs, 0, 5) == 0;
    assert Hands.CountEqual(cs, 2, 4) == (if cs[2].rank == cs[4].rank then 1 else 0);
    assert Hands.CountEqual(cs, 1, 4) == (if cs[1].rank == cs[4].rank then 1 else 0);
    assert Hands.CountEqual(cs, 0, 4) == (if cs[0].rank == cs[4].rank then 1 else 0);
    assert Hands.CountEqual(cs, 0, 3) == (if cs[0].rank == cs[3].rank then 1 else 0) + Hands.CountEqual(cs, 0, 4);
    assert Hands.CountEqual(cs, 1, 3) == (if cs[1].rank == cs[3].rank then 1 else 0) + Hands.CountEqual(cs, 1, 4);
    assert Hands.CountEqual(cs, 0, 2) == (if cs[0].rank == cs[2].rank then 1 else 0) + Hands.CountEqual(cs, 0, 3);
  }

  /**
   * On a sorted five-card hand the two-way pair count is 0, 1, 2, 3, 4, 6 or 10, and each
   * value means one rank pattern: the counts the classification tests for.
   */
  lemma {:induction false} PairCountOfSortedFive(cs: seq<Card>)
    requires |cs| == 5 && Hands.Sorted(cs)
    ensures Hands.PairCount(cs) in {0, 1, 2, 3, 4, 6, 10}
    ensures Hands.PairCount(cs) == 0 <==> NoPairShape(cs)
    ensures Hands.PairCount(cs) == 1 <==> OnePairShape(cs)
    ensures Hands.PairCount(cs) == 2 <==> TwoPairShape(cs)
    ensures Hands.PairCount(cs) == 3 <==> ThreeKindShape(cs)
    ensures Hands.PairCount(cs) == 4 <==> FullHouseShape(cs)
    ensures Hands.PairCount(cs) == 6 <==> FourKindShape(cs)
    ensures Hands.PairCount(cs) == 10 <==> FiveKindShape(cs)
  {
    PairCountOfFive(cs);
    Hands.SortedRanks(cs);
    var o0, o1, o2 := Ranks.Ordinal(cs[0].rank), Ranks.Ordinal(cs[1].rank), Ranks.Ordinal(cs[2].rank);
    var o3, o4 := Ranks.Ordinal(cs[3].rank), Ranks.Ordinal(cs[4].rank);
    assert o0 <= o1 <= o2 <= o3 <= o4;
    forall i, j | 0 <= i < 5 && 0 <= j < 5 ensures cs[i].rank == cs[j].rank <==> Ranks.Ordinal(cs[i].rank) == Ranks.Ordinal(cs[j].rank) {
    }
    assert NoPairShape(cs) <==> !Hands.PairAt(cs, 1) && !Hands.PairAt(cs, 2) && !Hands.PairAt(cs, 3) && !Hands.PairAt(cs, 4);
    assert FiveKindShape(cs) <==> Hands.PairAt(cs, 1) && Hands.PairAt(cs, 2) && Hands.PairAt(cs, 3) && Hands.PairAt(cs, 4);
  }

  /** Five ranks in a row, each one value higher than the one before. */
  predicate RunShape(cs: seq<Card>)
    requires |cs| == 5
  {
    forall i :: 1 <= i < 5 ==> Ranks.Value(cs[i].rank) == Ranks.Value(cs[i - 1].rank) + 1
  }

  /** The wheel: Two, Three, Four, Five and an Ace, which sorts last. */
  predicate WheelShape(cs: seq<Card>)
    requires |cs| == 5
  {
    cs[0].rank == Ranks.Two && cs[1].rank == Ranks.Three && cs[2].rank == Ranks.Four
    && cs[3].rank == Ranks.Five && cs[4].rank == Ranks.Ace
  }

  /** On a sorted five-card hand the consecutive-ranks test accepts exactly the runs and the wheel. */
  lemma {:induction false} ConsecutiveOfSortedFive(cs: seq<Card>)
    requires |cs| == 5 && Hands.Sorted(cs)
    ensures Hands.IsConsecutive(cs) <==> RunShape(cs) || WheelShape(cs)
  {
    Hands.SortedRanks(cs);
    forall i | 0 <= i < 5 ensures Ranks.Value(cs[i].rank) == Ranks.Ordinal(cs[i].rank) + 2 {
      Ranks.ValueIsOrdinalPlusTwo(cs[i].rank);
    }
    forall i | 0 <= i < 4
      ensures Hands.ConsecutiveAt(cs, i) <==>
        (Ranks.Value(cs[i + 1].rank) == Ranks.Value(cs[i].rank) + 1
         || (i == 3 && cs[3].rank == Ranks.Five && cs[4].rank == Ranks.Ace))
    {
      if cs[i].rank == Ranks.Ace {
        assert Ranks.Ordinal(cs[i + 1].rank) >= Ranks.Ordinal(Ranks.Ace);
      }
    }
    if Hands.IsConsecutive(cs) {
      assert Hands.ConsecutiveAt(cs, 0) && Hands.ConsecutiveAt(cs, 1) && Hands.ConsecutiveAt(cs, 2) && Hands.ConsecutiveAt(cs, 3);
    }
    if RunShape(cs) || WheelShape(cs) {
      forall i | 0 <= i < 4 ensures Hands.ConsecutiveAt(cs, i) {
        if RunShape(cs) {
          assert Ranks.Value(cs[i + 1].rank) == Ranks.Value(cs[i].rank) + 1;
        }
      }
    }
  }

  /** Two neighbours of one rank break any run: a hand with a pair is never consecutive. */
  lemma PairBreaksRun(cs: seq<Card>, i: int)
    requires 1 <= i < |cs| && Hands.PairAt(cs, i)
    ensures !Hands.IsConsecutive(cs)
  {
    assert !Hands.ConsecutiveAt(cs, i - 1);
  }

  /**
   * On a sorted five-card hand each category means its poker pattern: the precedence chain
   * lets a straight flush beat everything and a flush beat three of a kind and below.
   */
  lemma {:induction false} CategoryOfSortedFive(cs: seq<Card>)
    requires |cs| == 5 && Hands.Sorted(cs)
    ensures Category(cs) == Some(StraightFlush) <==> Hands.IsConsecutive(cs) && Hands.IsSameSuit(cs)
    ensures Category(cs) == Some(FourOfAKind) <==> FourKindShape(cs)
    ensures Category(cs) == Some(FullHouse) <==> FullHouseShape(cs)
    ensures Category(cs) == Some(Flush) <==>
      Hands.IsSameSuit(cs) && !Hands.IsConsecutive(cs) && !FourKindShape(cs) && !FullHouseShape(cs)
    ensures Category(cs) == Some(Straight) <==> Hands.IsConsecutive(cs) && !Hands.IsSameSuit(cs)
    ensures Category(cs) == Some(ThreeOfAKind) <==> ThreeKindShape(cs) && !Hands.IsSameSuit(cs)
    ensures Category(cs) == Some(TwoPairs) <==> TwoPairShape(cs) && !Hands.IsSameSuit(cs)
    ensures Category(cs) == Some(OnePair) <==> OnePairShape(cs) && !Hands.IsSameSuit(cs)
    ensures Category(cs) == Some(NoRank) <==>
      (NoPairShape(cs) || FiveKindShape(cs)) && !Hands.IsSameSuit(cs) && !Hands.IsConsecutive(cs)
  {
    PairCountOfSortedFive(cs);
    if !NoPairShape(cs) {
      var i :| 1 <= i < 5 && Hands.PairAt(cs, i);
      PairBreaksRun(cs, i);
    }
  }

  // Tie-breaks between two full hands of the same category.

  /** `compareMiddleCard`: compare the ranks at position `FullHand / 2` and nothing else. */
  function CompareMiddleCard(a: seq<Card>, b: seq<Card>): (r: int)
    requires |a| > FullHand / 2 && |b| > FullHand / 2
    ensures r == 0 <==> a[2].rank == b[2].rank
    ensures r > 0 <==> Ranks.Value(a[2].rank) > Ranks.Value(b[2].rank)
  {
    var middle := FullHand / 2;
    Ranks.CompareTo(a[middle].rank, b[middle].rank)
  }

  /**
   * One pass of the `compareSingleCards` loop and the passes after it, from the indices
   * `ci` (this hand) and `oi` (the other hand), as the Java writes it: the other hand's
   * card is read at `ci`, and after skipping a pair of the other hand the card compared is
   * read from this hand at `oi`.
   */
  function SinglesFrom(a: seq<Card>, b: seq<Card>, skip: seq<Card>, skipOther: seq<Card>, ci: int, oi: int): int
    requires |a| == FullHand && |b| == FullHand && ci < FullHand && oi < FullHand
    decreases ci + 2
  {
    if ci < 0 || oi < 0 then 0
    else
      var otherCard := b[ci];
      var ci' := if a[ci] in skip then ci - 2 else ci;
      if ci' < 0 then 0
      else
        var oi' := if otherCard in skipOther then oi - 2 else oi;
        if oi' < 0 then 0
        else
          var card := a[ci'];
          var otherCard' := if otherCard in skipOther then a[oi'] else otherCard;
          var result := Ranks.CompareTo(card.rank, otherCard'.rank);
          if result != 0 then result else SinglesFrom(a, b, skip, skipOther, ci' - 1, oi' - 1)
  }

  /** `compareSingleCards(other, skipPairCards, skipOtherPairCards)`, starting at the top card. */
  function CompareSingles(a: seq<Card>, b: seq<Card>, skip: seq<Card>, skipOther: seq<Card>): int
    requires |a| == FullHand && |b| == FullHand
  {
    SinglesFrom(a, b, skip, skipOther, FullHand - 1, FullHand - 1)
  }

  /** The highest position at or below `i` where the two hands' ranks differ, or -1 when they agree throughout. */
  function TopDifference(a: seq<Card>, b: seq<Card>, i: int): (k: int)
    requires -1 <= i < |a| && i < |b|
    ensures -1 <= k <= i
    ensures k == -1 <==> forall m :: 0 <= m <= i ==> a[m].rank == b[m].rank
    ensures k >= 0 ==> a[k].rank != b[k].rank && forall m :: k < m <= i ==> a[m].rank == b[m].rank
    decreases i + 1
  {
    if i < 0 then -1
    else if a[i].rank != b[i].rank then i
    else TopDifference(a, b, i - 1)
  }

  /**
   * With nothing to skip, the loop decides at the highest position where the ranks differ
   * and gives 0 when they never do: a lexicographic comparison from the top card down.
   */
  lemma {:induction false} SinglesWithoutSkips(a: seq<Card>, b: seq<Card>, i: int)
    requires |a| == FullHand && |b| == FullHand && -1 <= i < FullHand
    ensures var k := TopDifference(a, b, i);
      SinglesFrom(a, b, [], [], i, i) == if k < 0 then 0 else Ranks.CompareTo(a[k].rank, b[k].rank)
    decreases i + 1
  {
    if i >= 0 {
      SinglesWithoutSkips(a, b, i - 1);
    }
  }

  /** The card `findRankPairCardDescending` finds from the top of a full hand. */
  function FirstPair(cs: seq<Card>): Option<Card>
    requires |cs| == FullHand
  {
    Hands.FindPairDescending(cs, FullHand - 1)
  }

  /** The second pair of a two-pair hand: searched from two below the first pair card's position. */
  function SecondPair(cs: seq<Card>): Option<Card>
    requires |cs| == FullHand && FirstPair(cs).Some?
  {
    Hands.FindPairDescending(cs, Hands.IndexOf(cs, FirstPair(cs).value) - 2)
  }

  /** `compareOnePair`: the pair ranks, then the single cards with each pair skipped. */
  function OnePairOrder(a: seq<Card>, b: seq<Card>): int
    requires |a| == FullHand && |b| == FullHand && FirstPair(a).Some? && FirstPair(b).Some?
  {
    var pairCard, otherPairCard := FirstPair(a).value, FirstPair(b).value;
    var result := Ranks.CompareTo(pairCard.rank, otherPairCard.rank);
    if result == 0 then CompareSingles(a, b, [pairCard], [otherPairCard]) else result
  }

  /** `compareTwoPair`: the higher pair ranks, the lower pair ranks, then the single cards with both pairs skipped. */
  function TwoPairOrder(a: seq<Card>, b: seq<Card>): int
    requires |a| == FullHand && |b| == FullHand && FirstPair(a).Some? && FirstPair(b).Some?
    requires FirstPair(a).value.rank == FirstPair(b).value.rank ==> SecondPair(a).Some? && SecondPair(b).Some?
  {
    var firstPairCard, otherFirstPairCard := FirstPair(a).value, FirstPair(b).value;
    var result := Ranks.CompareTo(firstPairCard.rank, otherFirstPairCard.rank);
    if result != 0 then result
    else
      var secondPairCard, otherSecondPairCard := SecondPair(a).value, SecondPair(b).value;
      var result' := Ranks.CompareTo(secondPairCard.rank, otherSecondPairCard.rank);
      if result' != 0 then result'
      else CompareSingles(a, b, [firstPairCard, secondPairCard], [otherFirstPairCard, otherSecondPairCard])
  }

  /**
   * The pair look-ups `compareTo` dereferences all find a pair. Where this fails the Java
   * dereferences null and throws; hands dealt from one deck always satisfy it.
   */
  predicate ComparisonDefined(a: seq<Card>, b: seq<Card>) {
    (|a| == FullHand && |b| == FullHand && Category(a) == Category(b)) ==>
      ((Category(a) == Some(OnePair) || Category(a) == Some(TwoPairs)) ==> FirstPair(a).Some? && FirstPair(b).Some?)
      && ((Category(a) == Some(TwoPairs) && FirstPair(a).Some? && FirstPair(b).Some?
           && FirstPair(a).value.rank == FirstPair(b).value.rank) ==> SecondPair(a).Some? && SecondPair(b).Some?)
  }

  /**
   * The tie-break `compareTo` applies to two full hands of the same category `pokerRank`:
   * the middle card, the single cards from the top, or the pairs and then the single cards.
   */
  function TieBreak(a: seq<Card>, b: seq<Card>, pokerRank: PokerRank): int
    requires |a| == FullHand && |b| == FullHand
    requires pokerRank == OnePair || pokerRank == TwoPairs ==> FirstPair(a).Some? && FirstPair(b).Some?
    requires pokerRank == TwoPairs && FirstPair(a).Some? && FirstPair(b).Some? && FirstPair(a).value.rank == FirstPair(b).value.rank ==>
      SecondPair(a).Some? && SecondPair(b).Some?
  {
    if pokerRank == StraightFlush || pokerRank == Straight then CompareMiddleCard(a, b)
    else if pokerRank == FourOfAKind then CompareMiddleCard(a, b)
    else if pokerRank == FullHouse then CompareMiddleCard(a, b)
    else if pokerRank == Flush || pokerRank == NoRank then CompareSingles(a, b, [], [])
    else if pokerRank == ThreeOfAKind then CompareMiddleCard(a, b)
    else if pokerRank == TwoPairs then TwoPairOrder(a, b)
    else OnePairOrder(a, b)
  }

  /**
   * `compareTo`: a hand that is not full is below everything, a full hand is above a hand
   * that is not; full hands compare by category and then by the category's tie-break.
   */
  function CompareTo(a: seq<Card>, b: seq<Card>): int
    requires ComparisonDefined(a, b)
  {
    if |a| != FullHand then -1
    else if |b| != FullHand then 1
    else
      var pokerRank, otherPokerRank := Category(a).value, Category(b).value;
      var result := PokerRanks.CompareTo(pokerRank, otherPokerRank);
      if result != 0 then result else TieBreak(a, b, pokerRank)
  }

  // What the order promises.

  /** A hand that is not full is below any hand, even another that is not full; a full hand is above one that is not. */
  lemma NotFullIsBelow(a: seq<Card>, b: seq<Card>)
    ensures |a| != FullHand ==> ComparisonDefined(a, b) && CompareTo(a, b) == -1
    ensures |a| == FullHand && |b| != FullHand ==> ComparisonDefined(a, b) && CompareTo(a, b) == 1
    ensures |a| != FullHand && |b| != FullHand ==> CompareTo(a, b) == CompareTo(b, a) == -1
  {
  }

  /** Full hands of different categories compare as their categories do. */
  lemma CategoryDecides(a: seq<Card>, b: seq<Card>)
    requires |a| == FullHand && |b| == FullHand && Category(a) != Category(b)
    ensures ComparisonDefined(a, b)
    ensures CompareTo(a, b) != 0
    ensures CompareTo(a, b) > 0 <==> PokerRanks.Ordinal(Category(a).value) > PokerRanks.Ordinal(Category(b).value)
  {
  }

  /** Equal straights, straight flushes, four and three of a kinds and full houses compare the middle card's rank only. */
  lemma MiddleCardDecides(a: seq<Card>, b: seq<Card>)
    requires |a| == FullHand && |b| == FullHand && Category(a) == Category(b)
    requires Category(a).value in {StraightFlush, Straight, FourOfAKind, FullHouse, ThreeOfAKind}
    ensures ComparisonDefined(a, b)
    ensures CompareTo(a, b) == 0 <==> a[2].rank == b[2].rank
    ensures CompareTo(a, b) > 0 <==> Ranks.Value(a[2].rank) > Ranks.Value(b[2].rank)
  {
  }

  /** Equal flushes and no-rank hands compare rank by rank from the top card down; the first difference decides. */
  lemma SingleCardsDecide(a: seq<Card>, b: seq<Card>)
    requires |a| == FullHand && |b| == FullHand && Category(a) == Category(b)
    requires Category(a) == Some(Flush) || Category(a) == Some(NoRank)
    ensures ComparisonDefined(a, b)
    ensures var k := TopDifference(a, b, FullHand - 1);
      CompareTo(a, b) == if k < 0 then 0 else Ranks.CompareTo(a[k].rank, b[k].rank)
  {
    SinglesWithoutSkips(a, b, FullHand - 1);
  }

  /**
   * Equal one-pair hands compare the pairs' ranks: the higher pair wins. With pairs of one
   * rank the result is the single-card loop's, with the pairs skipped; the loop's own closed
   * forms are in `HandOrders`.
   */
  lemma OnePairDecides(a: seq<Card>, b: seq<Card>)
    requires |a| == FullHand && |b| == FullHand && Category(a) == Some(OnePair) && Category(b) == Some(OnePair)
    requires FirstPair(a).Some? && FirstPair(b).Some?
    ensures ComparisonDefined(a, b)
    ensures var p, q := FirstPair(a).value, FirstPair(b).value;
      p.rank != q.rank ==> CompareTo(a, b) != 0 && (CompareTo(a, b) > 0 <==> Ranks.Value(p.rank) > Ranks.Value(q.rank))
    ensures var p, q := FirstPair(a).value, FirstPair(b).value;
      CompareTo(a, b) == if p.rank != q.rank then Ranks.CompareTo(p.rank, q.rank) else CompareSingles(a, b, [p], [q])
  {
  }

  /**
   * Equal two-pair hands compare the higher pairs' ranks, then the lower pairs' ranks: the
   * first that differ decides. With both pairs of equal ranks the result is the single-card
   * loop's, with both pairs skipped; the loop's own closed forms are in `HandOrders`.
   */
  lemma TwoPairsDecide(a: seq<Card>, b: seq<Card>)
    requires |a| == FullHand && |b| == FullHand && Category(a) == Some(TwoPairs) && Category(b) == Some(TwoPairs)
    requires FirstPair(a).Some? && FirstPair(b).Some? && SecondPair(a).Some? && SecondPair(b).Some?
    ensures ComparisonDefined(a, b)
    ensures var p, q := FirstPair(a).value, FirstPair(b).value;
      p.rank != q.rank ==> CompareTo(a, b) != 0 && (CompareTo(a, b) > 0 <==> Ranks.Value(p.rank) > Ranks.Value(q.rank))
    ensures var p, q, p', q' := FirstPair(a).value, FirstPair(b).value, SecondPair(a).value, SecondPair(b).value;
      p.rank == q.rank && p'.rank != q'.rank ==>
        CompareTo(a, b) != 0 && (CompareTo(a, b) > 0 <==> Ranks.Value(p'.rank) > Ranks.Value(q'.rank))
    ensures var p, q, p', q' := FirstPair(a).value, FirstPair(b).value, SecondPair(a).value, SecondPair(b).value;
      CompareTo(a, b) ==
        if p.rank != q.rank then Ranks.CompareTo(p.rank, q.rank)
        else if p'.rank != q'.rank then Ranks.CompareTo(p'.rank, q'.rank)
        else CompareSingles(a, b, [p, p'], [q, q'])
  {
  }

  /** The wheel and a straight from Two to Six, both straights or both straight flushes, compare equal. */
  lemma WheelTiesSixHigh(wheel: seq<Card>, sixHigh: seq<Card>)
    requires |wheel| == FullHand && Hands.Sorted(wheel) && WheelShape(wheel)
    requires |sixHigh| == FullHand && Hands.Sorted(sixHigh) && RunShape(sixHigh) && sixHigh[0].rank == Ranks.Two
    requires Hands.IsSameSuit(wheel) == Hands.IsSameSuit(sixHigh)
    ensures ComparisonDefined(wheel, sixHigh) && CompareTo(wheel, sixHigh) == 0
    ensures ComparisonDefined(sixHigh, wheel) && CompareTo(sixHigh, wheel) == 0
  {
    ConsecutiveOfSortedFive(wheel);
    ConsecutiveOfSortedFive(sixHigh);
    CategoryOfSortedFive(wheel);
    CategoryOfSortedFive(sixHigh);
    Ranks.ValueIsOrdinalPlusTwo(sixHigh[2].rank);
    assert Ranks.Value(sixHigh[1].rank) == 3 && Ranks.Value(sixHigh[2].rank) == 4;
    assert sixHigh[2].rank == Ranks.Four;
  }

  /** The five cards of suit `s` whose ranks run upward from `low`, in card order. */
  function RunOf(low: Ranks.Rank, s: Suits.Suit): (cs: seq<Card>)
    requires Ranks.Ordinal(low) + FullHand <= |Ranks.Values|
    ensures |cs| == FullHand
  {
    seq(FullHand, k requires 0 <= k < FullHand => Cards.Card(Ranks.Values[Ranks.Ordinal(low) + k], s))
  }

  /** Two to Five and the Ace of suit `s`, in card order. */
  function WheelOf(s: Suits.Suit): (cs: seq<Card>)
    ensures |cs| == FullHand
  {
    [Cards.Card(Ranks.Two, s), Cards.Card(Ranks.Three, s), Cards.Card(Ranks.Four, s),
     Cards.Card(Ranks.Five, s), Cards.Card(Ranks.Ace, s)]
  }

  /** A run of one suit is in card order, consecutive and of one suit. */
  lemma {:induction false} RunOfIsStraightFlush(low: Ranks.Rank, s: Suits.Suit)
    requires Ranks.Ordinal(low) + FullHand <= |Ranks.Values|
    ensures Hands.Sorted(RunOf(low, s)) && Hands.IsConsecutive(RunOf(low, s)) && Hands.IsSameSuit(RunOf(low, s))
  {
    var run := RunOf(low, s);
    var o := Ranks.Ordinal(low);
    forall k | 0 <= k < FullHand ensures Ranks.Ordinal(run[k].rank) == o + k {
      Ranks.OrdinalOfValues(o + k);
    }
    forall i, j | 0 <= i < j < FullHand ensures Cards.CompareTo(run[i], run[j]) <= 0 {
      assert Ranks.Ordinal(run[i].rank) < Ranks.Ordinal(run[j].rank);
    }
    forall i | 0 <= i < FullHand - 1 ensures Hands.ConsecutiveAt(run, i) {
      assert run[i].rank != Ranks.Ace;
      assert Ranks.Next(run[i].rank) == Ranks.Values[o + i + 1];
    }
  }

  /** Five cards of one suit in a run, added to a hand in any order, make a straight flush. */
  lemma {:induction false} StraightFlushInAnyOrder(low: Ranks.Rank, s: Suits.Suit, dealt: seq<Card>)
    requires Ranks.Ordinal(low) + FullHand <= |Ranks.Values|
    requires multiset(dealt) == multiset(RunOf(low, s))
    ensures Category(Hands.SortCards(dealt)) == Some(StraightFlush)
  {
    RunOfIsStraightFlush(low, s);
    Hands.SortCardsUnique(dealt, RunOf(low, s));
  }

  /** The wheel of one suit is in card order, consecutive and of one suit. */
  lemma WheelOfIsStraightFlush(s: Suits.Suit)
    ensures Hands.Sorted(WheelOf(s)) && Hands.IsConsecutive(WheelOf(s)) && Hands.IsSameSuit(WheelOf(s))
  {
    WheelOfIsSorted(s);
    WheelOfIsConsecutive(s);
  }

  lemma WheelOfIsSorted(s: Suits.Suit)
    ensures Hands.Sorted(WheelOf(s))
  {
  }

  lemma WheelOfIsConsecutive(s: Suits.Suit)
    ensures Hands.IsConsecutive(WheelOf(s))
  {
    var wheel := WheelOf(s);
    assert Hands.ConsecutiveAt(wheel, 0) && Hands.ConsecutiveAt(wheel, 1) && Hands.ConsecutiveAt(wheel, 2);
    assert Hands.ConsecutiveAt(wheel, 3);
  }

  /** The wheel of one suit, added to a hand in any order, makes a straight flush. */
  lemma {:induction false} WheelStraightFlushInAnyOrder(s: Suits.Suit, dealt: seq<Card>)
    requires multiset(dealt) == multiset(WheelOf(s))
    ensures Category(Hands.SortCards(dealt)) == Some(StraightFlush)
  {
    WheelOfIsStraightFlush(s);
    Hands.SortCardsUnique(dealt, WheelOf(s));
  }

  /** A hand as the model keeps it: once full it is sorted and, when dealt from one deck, holds no card twice. */
  predicate DealtHand(cs: seq<Card>) {
    |cs| == FullHand ==> Hands.Sorted(cs) && Hands.Distinct(cs)
  }

  /** On a sorted hand without repeats the pair look-ups of the one-pair and two-pair tie-breaks find their pairs. */
  lemma {:induction false} PairLookupsSucceed(cs: seq<Card>)
    requires |cs| == FullHand && Hands.Sorted(cs) && Hands.Distinct(cs)
    ensures Category(cs) == Some(OnePair) ==> FirstPair(cs).Some?
    ensures Category(cs) == Some(TwoPairs) ==> FirstPair(cs).Some? && SecondPair(cs).Some?
  {
    CategoryOfSortedFive(cs);
    if Category(cs) == Some(TwoPairs) {
      assert TwoPairShape(cs);
      if Hands.PairAt(cs, 4) {
        assert FirstPair(cs) == Some(cs[4]);
        Hands.IndexOfDistinct(cs, 4);
        assert Hands.PairAt(cs, 1) || Hands.PairAt(cs, 2);
      } else {
        assert Hands.PairAt(cs, 3) && Hands.PairAt(cs, 1);
        assert FirstPair(cs) == Some(cs[3]);
        Hands.IndexOfDistinct(cs, 3);
      }
    }
  }

  /** Any two hands the model deals can be compared: none of the pair look-ups comes back empty. */
  lemma DealtHandsComparable(a: seq<Card>, b: seq<Card>)
    requires DealtHand(a) && DealtHand(b)
    ensures ComparisonDefined(a, b)
  {
    if |a| == FullHand && |b| == FullHand {
      PairLookupsSucceed(a);
      PairLookupsSucceed(b);
    }
  }

  // The same operations on a hand object whose full size is five, as `PokerHand` runs them.

  /** `getPokerRank`, through the hand's own scans: the category of its cards. */
  method GetPokerRank(h: Hands.Hand) returns (pokerRank: Option<PokerRank>)
    requires h.capacity == FullHand
    ensures pokerRank == Category(h.cards)
  {
    if !h.IsFullHand() {
      return None;
    }
    var rank := NoRank;
    var isConsecutiveRanks := h.GetIsConsecutiveRanks();
    var isSameSuits := h.GetIsSameSuit();
    var numSameRank := h.GetNumSameRankInTwoWayComparisons();
    if isConsecutiveRanks && isSameSuits {
      rank := StraightFlush;
    } else if numSameRank == 6 {
      rank := FourOfAKind;
    } else if numSameRank == 4 {
      rank := FullHouse;
    } else if isSameSuits {
      rank := Flush;
    } else if isConsecutiveRanks {
      rank := Straight;
    } else if numSameRank == 3 {
      rank := ThreeOfAKind;
    } else if numSameRank == 2 {
      rank := TwoPairs;
    } else if numSameRank == 1 {
      rank := OnePair;
    }
    return Some(rank);
  }

  /** `compareSingleCards(other, skipPairCards, skipOtherPairCards)`: the loop whose passes `SinglesFrom` describes. */
  method CompareSingleCards(a: Hands.Hand, b: Hands.Hand, skip: seq<Card>, skipOther: seq<Card>) returns (result: int)
    requires a.capacity == FullHand && |a.cards| == FullHand && |b.cards| == FullHand
    ensures result == CompareSingles(a.cards, b.cards, skip, skipOther)
  {
    result := 0;
    var cardIndex := a.capacity - 1;
    var otherCardIndex := a.capacity - 1;
    while cardIndex >= 0 && otherCardIndex >= 0
      invariant cardIndex < FullHand && otherCardIndex < FullHand && result == 0
      invariant SinglesFrom(a.cards, b.cards, skip, skipOther, cardIndex, otherCardIndex)
        == CompareSingles(a.cards, b.cards, skip, skipOther)
      decreases cardIndex + 1
    {
      var card := a.GetCard(cardIndex).value;
      var otherCard := b.GetCard(cardIndex).value;
      if card in skip {
        cardIndex := cardIndex - 2;
        if cardIndex < 0 {
          break;
        }
        card := a.GetCard(cardIndex).value;
      }
      if otherCard in skipOther {
        otherCardIndex := otherCardIndex - 2;
        if otherCardIndex < 0 {
          break;
        }
        otherCard := a.GetCard(otherCardIndex).value;
      }
      result := Ranks.CompareTo(card.rank, otherCard.rank);
      if result != 0 {
        break;
      }
      cardIndex := cardIndex - 1;
      otherCardIndex := otherCardIndex - 1;
    }
  }

  /** `compareOnePair`: the pairs' ranks, then the single cards with the pairs skipped. */
  method CompareOnePair(a: Hands.Hand, b: Hands.Hand) returns (result: int)
    requires a.capacity == FullHand && |a.cards| == FullHand && b.capacity == FullHand && |b.cards| == FullHand
    requires FirstPair(a.cards).Some? && FirstPair(b.cards).Some?
    ensures result == OnePairOrder(a.cards, b.cards)
  {
    var pairCard := a.FindRankPairCardDescending(a.capacity - 1);
    var otherPairCard := b.FindRankPairCardDescending(b.capacity - 1);
    result := Ranks.CompareTo(pairCard.value.rank, otherPairCard.value.rank);
    if result == 0 {
      result := CompareSingleCards(a, b, [pairCard.value], [otherPairCard.value]);
    }
  }

  /** `compareTwoPair`: the higher pairs' ranks, the lower pairs' ranks, then the single card. */
  method CompareTwoPair(a: Hands.Hand, b: Hands.Hand) returns (result: int)
    requires a.capacity == FullHand && |a.cards| == FullHand && b.capacity == FullHand && |b.cards| == FullHand
    requires FirstPair(a.cards).Some? && FirstPair(b.cards).Some?
    requires FirstPair(a.cards).value.rank == FirstPair(b.cards).value.rank ==>
      SecondPair(a.cards).Some? && SecondPair(b.cards).Some?
    ensures result == TwoPairOrder(a.cards, b.cards)
  {
    var firstPairCard := a.FindRankPairCardDescending(a.capacity - 1);
    var otherFirstPairCard := b.FindRankPairCardDescending(b.capacity - 1);
    result := Ranks.CompareTo(firstPairCard.value.rank, otherFirstPairCard.value.rank);
    if result == 0 {
      var secondPairCard := a.FindRankPairCardDescending(Hands.IndexOf(a.cards, firstPairCard.value) - 2);
      var otherSecondPairCard := b.FindRankPairCardDescending(Hands.IndexOf(b.cards, otherFirstPairCard.value) - 2);
      result := Ranks.CompareTo(secondPairCard.value.rank, otherSecondPairCard.value.rank);
      if result == 0 {
        result := CompareSingleCards(a, b, [firstPairCard.value, secondPairCard.value],
                                     [otherFirstPairCard.value, otherSecondPairCard.value]);
      }
    }
  }

  /** `compareTo` on two poker hand objects: the order `CompareTo` defines on their cards. */
  method CompareHands(a: Hands.Hand, b: Hands.Hand) returns (result: int)
    requires a.capacity == FullHand && b.capacity == FullHand && ComparisonDefined(a.cards, b.cards)
    ensures result == CompareTo(a.cards, b.cards)
  {
    var pokerRank := GetPokerRank(a);
    var otherPokerRank := GetPokerRank(b);
    if pokerRank.None? {
      return -1;
    } else if otherPokerRank.None? {
      return 1;
    }
    result := PokerRanks.CompareTo(pokerRank.value, otherPokerRank.value);
    if result == 0 {
      var rank := pokerRank.value;
      if rank == StraightFlush || rank == Straight {
        result := CompareMiddleCard(a.cards, b.cards);
      } else if rank == FourOfAKind {
        result := CompareMiddleCard(a.cards, b.cards);
      } else if rank == FullHouse {
        result := CompareMiddleCard(a.cards, b.cards);
      } else if rank == Flush || rank == NoRank {
        result := CompareSingleCards(a, b, [], []);
      } else if rank == ThreeOfAKind {
        result := CompareMiddleCard(a.cards, b.cards);
      } else if rank == TwoPairs {
        result := CompareTwoPair(a, b);
      } else if rank == OnePair {
        result := CompareOnePair(a, b);
      }
    }
  }
}
