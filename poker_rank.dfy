/** The nine poker hand categories, weakest first. */
module PokerRanks {
  datatype PokerRank = NoRank | OnePair | TwoPairs | ThreeOfAKind | Straight | Flush | FullHouse | FourOfAKind | StraightFlush

  /** The categories in declaration order. */
  const Values: seq<PokerRank> := [NoRank, OnePair, TwoPairs, ThreeOfAKind, Straight, Flush, FullHouse, FourOfAKind, StraightFlush]

  /** The position of a category in declaration order (`ordinal()`). */
  function Ordinal(p: PokerRank): (o: nat)
    ensures o < |Values| && Values[o] == p
  {
    match p
    case NoRank => 0
    case OnePair => 1
    case TwoPairs => 2
    case ThreeOfAKind => 3
    case Straight => 4
    case Flush => 5
    case FullHouse => 6
    case FourOfAKind => 7
    case StraightFlush => 8
  }

  /** The enum's `compareTo`: the difference of the two ordinals. */
  function CompareTo(a: PokerRank, b: PokerRank): (c: int)
    ensures c == 0 <==> a == b
  {
    Ordinal(a) - Ordinal(b)
  }

  /** The declaration order is a strict chain from NoRank up to StraightFlush. */
  lemma StrictlyOrdered()
    ensures |Values| == 9
    ensures forall i, j :: 0 <= i < j < |Values| ==> CompareTo(Values[i], Values[j]) < 0
  {
  }

  lemma NoRankIsLeast(p: PokerRank)
    ensures CompareTo(NoRank, p) <= 0
  {
  }

  lemma StraightFlushIsGreatest(p: PokerRank)
    ensures CompareTo(p, StraightFlush) <= 0
  {
  }

  /** A flush beats a straight and three of a kind and loses to a full house. */
  lemma FlushPlacement()
    ensures CompareTo(Flush, Straight) > 0 && CompareTo(Flush, ThreeOfAKind) > 0
    ensures CompareTo(Flush, FullHouse) < 0
  {
  }

  lemma CompareAntisymmetric(a: PokerRank, b: PokerRank)
    ensures CompareTo(a, b) == -CompareTo(b, a)
  {
  }
}
