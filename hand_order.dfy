/**
 * The order `compareTo` puts on full hands dealt from one deck. The single-card loop of the
 * pair tie-breaks reads the other hand's cards at mixed-up positions; on dealt hands the
 * order is antisymmetric and transitive all the same, which is what `Collections.sort`
 * demands of the comparator of `scoreRound`.
 */
module HandOrders {
  import opened Options
  import Ranks
  import Suits
  import Cards
  import opened PokerRanks
  import Hands
  import PokerHands

  type Card = Cards.Card

  /** A full hand as the deal leaves it: five cards, sorted, none twice. */
  predicate Dealt(h: seq<Card>) {
    |h| == PokerHands.FullHand && Hands.Sorted(h) && Hands.Distinct(h)
  }

  /** No card is in both hands. */
  predicate Disjoint(a: seq<Card>, b: seq<Card>) {
    forall c :: c in a ==> c !in b
  }

  /** `x` and `y` have opposite signs, as one comparison asked both ways round should. */
  predicate Opposite(x: int, y: int) {
    (x < 0 <==> y > 0) && (x > 0 <==> y < 0)
  }

  // The single-card loop on pair hands whose pairs have the same ranks.

  /** `r` unless it is zero, and `next` then: the loop stops at the first difference. */
  function Then(r: int, next: int): int {
    if r != 0 then r else next
  }

  /** Position `i` repeats the rank below it when `i` is in `pairs`, and is strictly higher otherwise. */
  predicate StepAt(h: seq<Card>, pairs: seq<int>, i: int)
    requires 1 <= i < |h|
  {
    if i in pairs then h[i - 1].rank == h[i].rank else Ranks.Value(h[i - 1].rank) < Ranks.Value(h[i].rank)
  }

  /** The ranks of five cards rise strictly from each card to the next, except where a pair in `pairs` ends. */
  predicate Steps(h: seq<Card>, pairs: seq<int>)
    requires |h| == PokerHands.FullHand
  {
    StepAt(h, pairs, 1) && StepAt(h, pairs, 2) && StepAt(h, pairs, 3) && StepAt(h, pairs, 4)
  }

  /** Where the higher and the lower pair of a sorted two-pair hand end. */
  predicate TwoPairsLayout(q: int, q': int) {
    (q == 4 && q' == 2) || (q == 4 && q' == 1) || (q == 3 && q' == 1)
  }

  /** The pair ending at 1 in this hand and at 1 in the other: the loop compares, position by position, this hand's 4 with 4, 3 with 3, 2 with 2. */
  lemma OnePairPass11(a: seq<Card>, b: seq<Card>)
    requires |a| == PokerHands.FullHand && |b| == PokerHands.FullHand && Hands.Distinct(a) && Hands.Distinct(b)
    ensures PokerHands.CompareSingles(a, b, [a[1]], [b[1]]) == Then(Ranks.CompareTo(a[4].rank, b[4].rank), Then(Ranks.CompareTo(a[3].rank, b[3].rank), Then(Ranks.CompareTo(a[2].rank, b[2].rank), 0)))
  {
    assert PokerHands.SinglesFrom(a, b, [a[1]], [b[1]], 1, 1) == 0;
    assert PokerHands.SinglesFrom(a, b, [a[1]], [b[1]], 2, 2) == Then(Ranks.CompareTo(a[2].rank, b[2].rank), PokerHands.SinglesFrom(a, b, [a[1]], [b[1]], 1, 1));
    assert PokerHands.SinglesFrom(a, b, [a[1]], [b[1]], 3, 3) == Then(Ranks.CompareTo(a[3].rank, b[3].rank), PokerHands.SinglesFrom(a, b, [a[1]], [b[1]], 2, 2));
    assert PokerHands.SinglesFrom(a, b, [a[1]], [b[1]], 4, 4) == Then(Ranks.CompareTo(a[4].rank, b[4].rank), PokerHands.SinglesFrom(a, b, [a[1]], [b[1]], 3, 3));
  }

  /** The pair ending at 1 in this hand and at 2 in the other: the loop compares, position by position, this hand's 4 with 4, 3 with 3, 2 with its own 0. */
  lemma OnePairPass12(a: seq<Card>, b: seq<Card>)
    requires |a| == PokerHands.FullHand && |b| == PokerHands.FullHand && Hands.Distinct(a) && Hands.Distinct(b)
    ensures PokerHands.CompareSingles(a, b, [a[1]], [b[2]]) == Then(Ranks.CompareTo(a[4].rank, b[4].rank), Then(Ranks.CompareTo(a[3].rank, b[3].rank), Then(Ranks.CompareTo(a[2].rank, a[0].rank), 0)))
  {
    assert PokerHands.SinglesFrom(a, b, [a[1]], [b[2]], 1, -1) == 0;
    assert PokerHands.SinglesFrom(a, b, [a[1]], [b[2]], 2, 2) == Then(Ranks.CompareTo(a[2].rank, a[0].rank), PokerHands.SinglesFrom(a, b, [a[1]], [b[2]], 1, -1));
    assert PokerHands.SinglesFrom(a, b, [a[1]], [b[2]], 3, 3) == Then(Ranks.CompareTo(a[3].rank, b[3].rank), PokerHands.SinglesFrom(a, b, [a[1]], [b[2]], 2, 2));
    assert PokerHands.SinglesFrom(a, b, [a[1]], [b[2]], 4, 4) == Then(Ranks.CompareTo(a[4].rank, b[4].rank), PokerHands.SinglesFrom(a, b, [a[1]], [b[2]], 3, 3));
  }

  /** The pair ending at 1 in this hand and at 3 in the other: the loop compares, position by position, this hand's 4 with 4, 3 with its own 1, 2 with 2. */
  lemma OnePairPass13(a: seq<Card>, b: seq<Card>)
    requires |a| == PokerHands.FullHand && |b| == PokerHands.FullHand && Hands.Distinct(a) && Hands.Distinct(b)
    ensures PokerHands.CompareSingles(a, b, [a[1]], [b[3]]) == Then(Ranks.CompareTo(a[4].rank, b[4].rank), Then(Ranks.CompareTo(a[3].rank, a[1].rank), Then(Ranks.CompareTo(a[2].rank, b[2].rank), 0)))
  {
    assert PokerHands.SinglesFrom(a, b, [a[1]], [b[3]], 1, -1) == 0;
    assert PokerHands.SinglesFrom(a, b, [a[1]], [b[3]], 2, 0) == Then(Ranks.CompareTo(a[2].rank, b[2].rank), PokerHands.SinglesFrom(a, b, [a[1]], [b[3]], 1, -1));
    assert PokerHands.SinglesFrom(a, b, [a[1]], [b[3]], 3, 3) == Then(Ranks.CompareTo(a[3].rank, a[1].rank), PokerHands.SinglesFrom(a, b, [a[1]], [b[3]], 2, 0));
    assert PokerHands.SinglesFrom(a, b, [a[1]], [b[3]], 4, 4) == Then(Ranks.CompareTo(a[4].rank, b[4].rank), PokerHands.SinglesFrom(a, b, [a[1]], [b[3]], 3, 3));
  }

  /** The pair ending at 1 in this hand and at 4 in the other: the loop compares, position by position, this hand's 4 with its own 2, 3 with 3, 2 with 2. */
  lemma OnePairPass14(a: seq<Card>, b: seq<Card>)
    requires |a| == PokerHands.FullHand && |b| == PokerHands.FullHand && Hands.Distinct(a) && Hands.Distinct(b)
    ensures PokerHands.CompareSingles(a, b, [a[1]], [b[4]]) == Then(Ranks.CompareTo(a[4].rank, a[2].rank), Then(Ranks.CompareTo(a[3].rank, b[3].rank), Then(Ranks.CompareTo(a[2].rank, b[2].rank), 0)))
  {
    assert PokerHands.SinglesFrom(a, b, [a[1]], [b[4]], 1, -1) == 0;
    assert PokerHands.SinglesFrom(a, b, [a[1]], [b[4]], 2, 0) == Then(Ranks.CompareTo(a[2].rank, b[2].rank), PokerHands.SinglesFrom(a, b, [a[1]], [b[4]], 1, -1));
    assert PokerHands.SinglesFrom(a, b, [a[1]], [b[4]], 3, 1) == Then(Ranks.CompareTo(a[3].rank, b[3].rank), PokerHands.SinglesFrom(a, b, [a[1]], [b[4]], 2, 0));
    assert PokerHands.SinglesFrom(a, b, [a[1]], [b[4]], 4, 4) == Then(Ranks.CompareTo(a[4].rank, a[2].rank), PokerHands.SinglesFrom(a, b, [a[1]], [b[4]], 3, 1));
  }

  /** The pair ending at 2 in this hand and at 1 in the other: the loop compares, position by position, this hand's 4 with 4, 3 with 3, 0 with 2. */
  lemma OnePairPass21(a: seq<Card>, b: seq<Card>)
    requires |a| == PokerHands.FullHand && |b| == PokerHands.FullHand && Hands.Distinct(a) && Hands.Distinct(b)
    ensures PokerHands.CompareSingles(a, b, [a[2]], [b[1]]) == Then(Ranks.CompareTo(a[4].rank, b[4].rank), Then(Ranks.CompareTo(a[3].rank, b[3].rank), Then(Ranks.CompareTo(a[0].rank, b[2].rank), 0)))
  {
    assert PokerHands.SinglesFrom(a, b, [a[2]], [b[1]], -1, 1) == 0;
    assert PokerHands.SinglesFrom(a, b, [a[2]], [b[1]], 2, 2) == Then(Ranks.CompareTo(a[0].rank, b[2].rank), PokerHands.SinglesFrom(a, b, [a[2]], [b[1]], -1, 1));
    assert PokerHands.SinglesFrom(a, b, [a[2]], [b[1]], 3, 3) == Then(Ranks.CompareTo(a[3].rank, b[3].rank), PokerHands.SinglesFrom(a, b, [a[2]], [b[1]], 2, 2));
    assert PokerHands.SinglesFrom(a, b, [a[2]], [b[1]], 4, 4) == Then(Ranks.CompareTo(a[4].rank, b[4].rank), PokerHands.SinglesFrom(a, b, [a[2]], [b[1]], 3, 3));
  }

  /** The pair ending at 2 in this hand and at 2 in the other: the loop compares, position by position, this hand's 4 with 4, 3 with 3, 0 with its own 0. */
  lemma OnePairPass22(a: seq<Card>, b: seq<Card>)
    requires |a| == PokerHands.FullHand && |b| == PokerHands.FullHand && Hands.Distinct(a) && Hands.Distinct(b)
    ensures PokerHands.CompareSingles(a, b, [a[2]], [b[2]]) == Then(Ranks.CompareTo(a[4].rank, b[4].rank), Then(Ranks.CompareTo(a[3].rank, b[3].rank), Then(Ranks.CompareTo(a[0].rank, a[0].rank), 0)))
  {
    assert PokerHands.SinglesFrom(a, b, [a[2]], [b[2]], -1, -1) == 0;
    assert PokerHands.SinglesFrom(a, b, [a[2]], [b[2]], 2, 2) == Then(Ranks.CompareTo(a[0].rank, a[0].rank), PokerHands.SinglesFrom(a, b, [a[2]], [b[2]], -1, -1));
    assert PokerHands.SinglesFrom(a, b, [a[2]], [b[2]], 3, 3) == Then(Ranks.CompareTo(a[3].rank, b[3].rank), PokerHands.SinglesFrom(a, b, [a[2]], [b[2]], 2, 2));
    assert PokerHands.SinglesFrom(a, b, [a[2]], [b[2]], 4, 4) == Then(Ranks.CompareTo(a[4].rank, b[4].rank), PokerHands.SinglesFrom(a, b, [a[2]], [b[2]], 3, 3));
  }

  /** The pair ending at 2 in this hand and at 3 in the other: the loop compares, position by position, this hand's 4 with 4, 3 with its own 1, 0 with 2. */
  lemma OnePairPass23(a: seq<Card>, b: seq<Card>)
    requires |a| == PokerHands.FullHand && |b| == PokerHands.FullHand && Hands.Distinct(a) && Hands.Distinct(b)
    ensures PokerHands.CompareSingles(a, b, [a[2]], [b[3]]) == Then(Ranks.CompareTo(a[4].rank, b[4].rank), Then(Ranks.CompareTo(a[3].rank, a[1].rank), Then(Ranks.CompareTo(a[0].rank, b[2].rank), 0)))
  {
    assert PokerHands.SinglesFrom(a, b, [a[2]], [b[3]], -1, -1) == 0;
    assert PokerHands.SinglesFrom(a, b, [a[2]], [b[3]], 2, 0) == Then(Ranks.CompareTo(a[0].rank, b[2].rank), PokerHands.SinglesFrom(a, b, [a[2]], [b[3]], -1, -1));
    assert PokerHands.SinglesFrom(a, b, [a[2]], [b[3]], 3, 3) == Then(Ranks.CompareTo(a[3].rank, a[1].rank), PokerHands.SinglesFrom(a, b, [a[2]], [b[3]], 2, 0));
    assert PokerHands.SinglesFrom(a, b, [a[2]], [b[3]], 4, 4) == Then(Ranks.CompareTo(a[4].rank, b[4].rank), PokerHands.SinglesFrom(a, b, [a[2]], [b[3]], 3, 3));
  }

  /** The pair ending at 2 in this hand and at 4 in the other: the loop compares, position by position, this hand's 4 with its own 2, 3 with 3, 0 with 2. */
  lemma OnePairPass24(a: seq<Card>, b: seq<Card>)
    requires |a| == PokerHands.FullHand && |b| == PokerHands.FullHand && Hands.Distinct(a) && Hands.Distinct(b)
    ensures PokerHands.CompareSingles(a, b, [a[2]], [b[4]]) == Then(Ranks.CompareTo(a[4].rank, a[2].rank), Then(Ranks.CompareTo(a[3].rank, b[3].rank), Then(Ranks.CompareTo(a[0].rank, b[2].rank), 0)))
  {
    assert PokerHands.SinglesFrom(a, b, [a[2]], [b[4]], -1, -1) == 0;
    assert PokerHands.SinglesFrom(a, b, [a[2]], [b[4]], 2, 0) == Then(Ranks.CompareTo(a[0].rank, b[2].rank), PokerHands.SinglesFrom(a, b, [a[2]], [b[4]], -1, -1));
    assert PokerHands.SinglesFrom(a, b, [a[2]], [b[4]], 3, 1) == Then(Ranks.CompareTo(a[3].rank, b[3].rank), PokerHands.SinglesFrom(a, b, [a[2]], [b[4]], 2, 0));
    assert PokerHands.SinglesFrom(a, b, [a[2]], [b[4]], 4, 4) == Then(Ranks.CompareTo(a[4].rank, a[2].rank), PokerHands.SinglesFrom(a, b, [a[2]], [b[4]], 3, 1));
  }

  /** The pair ending at 3 in this hand and at 1 in the other: the loop compares, position by position, this hand's 4 with 4, 1 with 3, 0 with 0. */
  lemma OnePairPass31(a: seq<Card>, b: seq<Card>)
    requires |a| == PokerHands.FullHand && |b| == PokerHands.FullHand && Hands.Distinct(a) && Hands.Distinct(b)
    ensures PokerHands.CompareSingles(a, b, [a[3]], [b[1]]) == Then(Ranks.CompareTo(a[4].rank, b[4].rank), Then(Ranks.CompareTo(a[1].rank, b[3].rank), Then(Ranks.CompareTo(a[0].rank, b[0].rank), 0)))
  {
    assert PokerHands.SinglesFrom(a, b, [a[3]], [b[1]], -1, 1) == 0;
    assert PokerHands.SinglesFrom(a, b, [a[3]], [b[1]], 0, 2) == Then(Ranks.CompareTo(a[0].rank, b[0].rank), PokerHands.SinglesFrom(a, b, [a[3]], [b[1]], -1, 1));
    assert PokerHands.SinglesFrom(a, b, [a[3]], [b[1]], 3, 3) == Then(Ranks.CompareTo(a[1].rank, b[3].rank), PokerHands.SinglesFrom(a, b, [a[3]], [b[1]], 0, 2));
    assert PokerHands.SinglesFrom(a, b, [a[3]], [b[1]], 4, 4) == Then(Ranks.CompareTo(a[4].rank, b[4].rank), PokerHands.SinglesFrom(a, b, [a[3]], [b[1]], 3, 3));
  }

  /** The pair ending at 3 in this hand and at 2 in the other: the loop compares, position by position, this hand's 4 with 4, 1 with 3, 0 with 0. */
  lemma OnePairPass32(a: seq<Card>, b: seq<Card>)
    requires |a| == PokerHands.FullHand && |b| == PokerHands.FullHand && Hands.Distinct(a) && Hands.Distinct(b)
    ensures PokerHands.CompareSingles(a, b, [a[3]], [b[2]]) == Then(Ranks.CompareTo(a[4].rank, b[4].rank), Then(Ranks.CompareTo(a[1].rank, b[3].rank), Then(Ranks.CompareTo(a[0].rank, b[0].rank), 0)))
  {
    assert PokerHands.SinglesFrom(a, b, [a[3]], [b[2]], -1, 1) == 0;
    assert PokerHands.SinglesFrom(a, b, [a[3]], [b[2]], 0, 2) == Then(Ranks.CompareTo(a[0].rank, b[0].rank), PokerHands.SinglesFrom(a, b, [a[3]], [b[2]], -1, 1));
    assert PokerHands.SinglesFrom(a, b, [a[3]], [b[2]], 3, 3) == Then(Ranks.CompareTo(a[1].rank, b[3].rank), PokerHands.SinglesFrom(a, b, [a[3]], [b[2]], 0, 2));
    assert PokerHands.SinglesFrom(a, b, [a[3]], [b[2]], 4, 4) == Then(Ranks.CompareTo(a[4].rank, b[4].rank), PokerHands.SinglesFrom(a, b, [a[3]], [b[2]], 3, 3));
  }

  /** The pair ending at 3 in this hand and at 3 in the other: the loop compares, position by position, this hand's 4 with 4, 1 with its own 1, 0 with 0. */
  lemma OnePairPass33(a: seq<Card>, b: seq<Card>)
    requires |a| == PokerHands.FullHand && |b| == PokerHands.FullHand && Hands.Distinct(a) && Hands.Distinct(b)
    ensures PokerHands.CompareSingles(a, b, [a[3]], [b[3]]) == Then(Ranks.CompareTo(a[4].rank, b[4].rank), Then(Ranks.CompareTo(a[1].rank, a[1].rank), Then(Ranks.CompareTo(a[0].rank, b[0].rank), 0)))
  {
    assert PokerHands.SinglesFrom(a, b, [a[3]], [b[3]], -1, -1) == 0;
    assert PokerHands.SinglesFrom(a, b, [a[3]], [b[3]], 0, 0) == Then(Ranks.CompareTo(a[0].rank, b[0].rank), PokerHands.SinglesFrom(a, b, [a[3]], [b[3]], -1, -1));
    assert PokerHands.SinglesFrom(a, b, [a[3]], [b[3]], 3, 3) == Then(Ranks.CompareTo(a[1].rank, a[1].rank), PokerHands.SinglesFrom(a, b, [a[3]], [b[3]], 0, 0));
    assert PokerHands.SinglesFrom(a, b, [a[3]], [b[3]], 4, 4) == Then(Ranks.CompareTo(a[4].rank, b[4].rank), PokerHands.SinglesFrom(a, b, [a[3]], [b[3]], 3, 3));
  }

  /** The pair ending at 3 in this hand and at 4 in the other: the loop compares, position by position, this hand's 4 with its own 2, 1 with 3, 0 with 0. */
  lemma OnePairPass34(a: seq<Card>, b: seq<Card>)
    requires |a| == PokerHands.FullHand && |b| == PokerHands.FullHand && Hands.Distinct(a) && Hands.Distinct(b)
    ensures PokerHands.CompareSingles(a, b, [a[3]], [b[4]]) == Then(Ranks.CompareTo(a[4].rank, a[2].rank), Then(Ranks.CompareTo(a[1].rank, b[3].rank), Then(Ranks.CompareTo(a[0].rank, b[0].rank), 0)))
  {
    assert PokerHands.SinglesFrom(a, b, [a[3]], [b[4]], -1, -1) == 0;
    assert PokerHands.SinglesFrom(a, b, [a[3]], [b[4]], 0, 0) == Then(Ranks.CompareTo(a[0].rank, b[0].rank), PokerHands.SinglesFrom(a, b, [a[3]], [b[4]], -1, -1));
    assert PokerHands.SinglesFrom(a, b, [a[3]], [b[4]], 3, 1) == Then(Ranks.CompareTo(a[1].rank, b[3].rank), PokerHands.SinglesFrom(a, b, [a[3]], [b[4]], 0, 0));
    assert PokerHands.SinglesFrom(a, b, [a[3]], [b[4]], 4, 4) == Then(Ranks.CompareTo(a[4].rank, a[2].rank), PokerHands.SinglesFrom(a, b, [a[3]], [b[4]], 3, 1));
  }

  /** The pair ending at 4 in this hand and at 1 in the other: the loop compares, position by position, this hand's 2 with 4, 1 with its own 1, 0 with 0. */
  lemma OnePairPass41(a: seq<Card>, b: seq<Card>)
    requires |a| == PokerHands.FullHand && |b| == PokerHands.FullHand && Hands.Distinct(a) && Hands.Distinct(b)
    ensures PokerHands.CompareSingles(a, b, [a[4]], [b[1]]) == Then(Ranks.CompareTo(a[2].rank, b[4].rank), Then(Ranks.CompareTo(a[1].rank, a[1].rank), Then(Ranks.CompareTo(a[0].rank, b[0].rank), 0)))
  {
    assert PokerHands.SinglesFrom(a, b, [a[4]], [b[1]], -1, -1) == 0;
    assert PokerHands.SinglesFrom(a, b, [a[4]], [b[1]], 0, 0) == Then(Ranks.CompareTo(a[0].rank, b[0].rank), PokerHands.SinglesFrom(a, b, [a[4]], [b[1]], -1, -1));
    assert PokerHands.SinglesFrom(a, b, [a[4]], [b[1]], 1, 3) == Then(Ranks.CompareTo(a[1].rank, a[1].rank), PokerHands.SinglesFrom(a, b, [a[4]], [b[1]], 0, 0));
    assert PokerHands.SinglesFrom(a, b, [a[4]], [b[1]], 4, 4) == Then(Ranks.CompareTo(a[2].rank, b[4].rank), PokerHands.SinglesFrom(a, b, [a[4]], [b[1]], 1, 3));
  }

  /** The pair ending at 4 in this hand and at 2 in the other: the loop compares, position by position, this hand's 2 with 4, 1 with 1, 0 with 0. */
  lemma OnePairPass42(a: seq<Card>, b: seq<Card>)
    requires |a| == PokerHands.FullHand && |b| == PokerHands.FullHand && Hands.Distinct(a) && Hands.Distinct(b)
    ensures PokerHands.CompareSingles(a, b, [a[4]], [b[2]]) == Then(Ranks.CompareTo(a[2].rank, b[4].rank), Then(Ranks.CompareTo(a[1].rank, b[1].rank), Then(Ranks.CompareTo(a[0].rank, b[0].rank), 0)))
  {
    assert PokerHands.SinglesFrom(a, b, [a[4]], [b[2]], -1, 1) == 0;
    assert PokerHands.SinglesFrom(a, b, [a[4]], [b[2]], 0, 2) == Then(Ranks.CompareTo(a[0].rank, b[0].rank), PokerHands.SinglesFrom(a, b, [a[4]], [b[2]], -1, 1));
    assert PokerHands.SinglesFrom(a, b, [a[4]], [b[2]], 1, 3) == Then(Ranks.CompareTo(a[1].rank, b[1].rank), PokerHands.SinglesFrom(a, b, [a[4]], [b[2]], 0, 2));
    assert PokerHands.SinglesFrom(a, b, [a[4]], [b[2]], 4, 4) == Then(Ranks.CompareTo(a[2].rank, b[4].rank), PokerHands.SinglesFrom(a, b, [a[4]], [b[2]], 1, 3));
  }

  /** The pair ending at 4 in this hand and at 3 in the other: the loop compares, position by position, this hand's 2 with 4, 1 with 1, 0 with 0. */
  lemma OnePairPass43(a: seq<Card>, b: seq<Card>)
    requires |a| == PokerHands.FullHand && |b| == PokerHands.FullHand && Hands.Distinct(a) && Hands.Distinct(b)
    ensures PokerHands.CompareSingles(a, b, [a[4]], [b[3]]) == Then(Ranks.CompareTo(a[2].rank, b[4].rank), Then(Ranks.CompareTo(a[1].rank, b[1].rank), Then(Ranks.CompareTo(a[0].rank, b[0].rank), 0)))
  {
    assert PokerHands.SinglesFrom(a, b, [a[4]], [b[3]], -1, 1) == 0;
    assert PokerHands.SinglesFrom(a, b, [a[4]], [b[3]], 0, 2) == Then(Ranks.CompareTo(a[0].rank, b[0].rank), PokerHands.SinglesFrom(a, b, [a[4]], [b[3]], -1, 1));
    assert PokerHands.SinglesFrom(a, b, [a[4]], [b[3]], 1, 3) == Then(Ranks.CompareTo(a[1].rank, b[1].rank), PokerHands.SinglesFrom(a, b, [a[4]], [b[3]], 0, 2));
    assert PokerHands.SinglesFrom(a, b, [a[4]], [b[3]], 4, 4) == Then(Ranks.CompareTo(a[2].rank, b[4].rank), PokerHands.SinglesFrom(a, b, [a[4]], [b[3]], 1, 3));
  }

  /** The pair ending at 4 in this hand and at 4 in the other: the loop compares, position by position, this hand's 2 with its own 2, 1 with 1, 0 with 0. */
  lemma OnePairPass44(a: seq<Card>, b: seq<Card>)
    requires |a| == PokerHands.FullHand && |b| == PokerHands.FullHand && Hands.Distinct(a) && Hands.Distinct(b)
    ensures PokerHands.CompareSingles(a, b, [a[4]], [b[4]]) == Then(Ranks.CompareTo(a[2].rank, a[2].rank), Then(Ranks.CompareTo(a[1].rank, b[1].rank), Then(Ranks.CompareTo(a[0].rank, b[0].rank), 0)))
  {
    assert PokerHands.SinglesFrom(a, b, [a[4]], [b[4]], -1, -1) == 0;
    assert PokerHands.SinglesFrom(a, b, [a[4]], [b[4]], 0, 0) == Then(Ranks.CompareTo(a[0].rank, b[0].rank), PokerHands.SinglesFrom(a, b, [a[4]], [b[4]], -1, -1));
    assert PokerHands.SinglesFrom(a, b, [a[4]], [b[4]], 1, 1) == Then(Ranks.CompareTo(a[1].rank, b[1].rank), PokerHands.SinglesFrom(a, b, [a[4]], [b[4]], 0, 0));
    assert PokerHands.SinglesFrom(a, b, [a[4]], [b[4]], 4, 4) == Then(Ranks.CompareTo(a[2].rank, a[2].rank), PokerHands.SinglesFrom(a, b, [a[4]], [b[4]], 1, 1));
  }

  /** Pairs ending at 4/2 in this hand and at 4/2 in the other: the loop compares, position by position, this hand's 2 with its own 2, 1 with 1, 0 with 0. */
  lemma TwoPairsPass4242(a: seq<Card>, b: seq<Card>)
    requires |a| == PokerHands.FullHand && |b| == PokerHands.FullHand && Hands.Distinct(a) && Hands.Distinct(b)
    ensures PokerHands.CompareSingles(a, b, [a[4], a[2]], [b[4], b[2]]) == Then(Ranks.CompareTo(a[2].rank, a[2].rank), Then(Ranks.CompareTo(a[1].rank, b[1].rank), Then(Ranks.CompareTo(a[0].rank, b[0].rank), 0)))
  {
    assert PokerHands.SinglesFrom(a, b, [a[4], a[2]], [b[4], b[2]], -1, -1) == 0;
    assert PokerHands.SinglesFrom(a, b, [a[4], a[2]], [b[4], b[2]], 0, 0) == Then(Ranks.CompareTo(a[0].rank, b[0].rank), PokerHands.SinglesFrom(a, b, [a[4], a[2]], [b[4], b[2]], -1, -1));
    assert PokerHands.SinglesFrom(a, b, [a[4], a[2]], [b[4], b[2]], 1, 1) == Then(Ranks.CompareTo(a[1].rank, b[1].rank), PokerHands.SinglesFrom(a, b, [a[4], a[2]], [b[4], b[2]], 0, 0));
    assert PokerHands.SinglesFrom(a, b, [a[4], a[2]], [b[4], b[2]], 4, 4) == Then(Ranks.CompareTo(a[2].rank, a[2].rank), PokerHands.SinglesFrom(a, b, [a[4], a[2]], [b[4], b[2]], 1, 1));
  }

  /** Pairs ending at 4/2 in this hand and at 4/1 in the other: the loop compares, position by position, this hand's 2 with its own 2. */
  lemma TwoPairsPass4241(a: seq<Card>, b: seq<Card>)
    requires |a| == PokerHands.FullHand && |b| == PokerHands.FullHand && Hands.Distinct(a) && Hands.Distinct(b)
    ensures PokerHands.CompareSingles(a, b, [a[4], a[2]], [b[4], b[1]]) == Then(Ranks.CompareTo(a[2].rank, a[2].rank), 0)
  {
    assert PokerHands.SinglesFrom(a, b, [a[4], a[2]], [b[4], b[1]], 1, 1) == 0;
    assert PokerHands.SinglesFrom(a, b, [a[4], a[2]], [b[4], b[1]], 4, 4) == Then(Ranks.CompareTo(a[2].rank, a[2].rank), PokerHands.SinglesFrom(a, b, [a[4], a[2]], [b[4], b[1]], 1, 1));
  }

  /** Pairs ending at 4/2 in this hand and at 3/1 in the other: the loop compares, position by position, this hand's 2 with 4, 1 with its own 1, 0 with 0. */
  lemma TwoPairsPass4231(a: seq<Card>, b: seq<Card>)
    requires |a| == PokerHands.FullHand && |b| == PokerHands.FullHand && Hands.Distinct(a) && Hands.Distinct(b)
    ensures PokerHands.CompareSingles(a, b, [a[4], a[2]], [b[3], b[1]]) == Then(Ranks.CompareTo(a[2].rank, b[4].rank), Then(Ranks.CompareTo(a[1].rank, a[1].rank), Then(Ranks.CompareTo(a[0].rank, b[0].rank), 0)))
  {
    assert PokerHands.SinglesFrom(a, b, [a[4], a[2]], [b[3], b[1]], -1, -1) == 0;
    assert PokerHands.SinglesFrom(a, b, [a[4], a[2]], [b[3], b[1]], 0, 0) == Then(Ranks.CompareTo(a[0].rank, b[0].rank), PokerHands.SinglesFrom(a, b, [a[4], a[2]], [b[3], b[1]], -1, -1));
    assert PokerHands.SinglesFrom(a, b, [a[4], a[2]], [b[3], b[1]], 1, 3) == Then(Ranks.CompareTo(a[1].rank, a[1].rank), PokerHands.SinglesFrom(a, b, [a[4], a[2]], [b[3], b[1]], 0, 0));
    assert PokerHands.SinglesFrom(a, b, [a[4], a[2]], [b[3], b[1]], 4, 4) == Then(Ranks.CompareTo(a[2].rank, b[4].rank), PokerHands.SinglesFrom(a, b, [a[4], a[2]], [b[3], b[1]], 1, 3));
  }

  /** Pairs ending at 4/1 in this hand and at 4/2 in the other: the loop compares, position by position, this hand's 2 with its own 2. */
  lemma TwoPairsPass4142(a: seq<Card>, b: seq<Card>)
    requires |a| == PokerHands.FullHand && |b| == PokerHands.FullHand && Hands.Distinct(a) && Hands.Distinct(b)
    ensures PokerHands.CompareSingles(a, b, [a[4], a[1]], [b[4], b[2]]) == Then(Ranks.CompareTo(a[2].rank, a[2].rank), 0)
  {
    assert PokerHands.SinglesFrom(a, b, [a[4], a[1]], [b[4], b[2]], 1, 1) == 0;
    assert PokerHands.SinglesFrom(a, b, [a[4], a[1]], [b[4], b[2]], 4, 4) == Then(Ranks.CompareTo(a[2].rank, a[2].rank), PokerHands.SinglesFrom(a, b, [a[4], a[1]], [b[4], b[2]], 1, 1));
  }

  /** Pairs ending at 4/1 in this hand and at 4/1 in the other: the loop compares, position by position, this hand's 2 with its own 2. */
  lemma TwoPairsPass4141(a: seq<Card>, b: seq<Card>)
    requires |a| == PokerHands.FullHand && |b| == PokerHands.FullHand && Hands.Distinct(a) && Hands.Distinct(b)
    ensures PokerHands.CompareSingles(a, b, [a[4], a[1]], [b[4], b[1]]) == Then(Ranks.CompareTo(a[2].rank, a[2].rank), 0)
  {
    assert PokerHands.SinglesFrom(a, b, [a[4], a[1]], [b[4], b[1]], 1, 1) == 0;
    assert PokerHands.SinglesFrom(a, b, [a[4], a[1]], [b[4], b[1]], 4, 4) == Then(Ranks.CompareTo(a[2].rank, a[2].rank), PokerHands.SinglesFrom(a, b, [a[4], a[1]], [b[4], b[1]], 1, 1));
  }

  /** Pairs ending at 4/1 in this hand and at 3/1 in the other: the loop compares, position by position, this hand's 2 with 4. */
  lemma TwoPairsPass4131(a: seq<Card>, b: seq<Card>)
    requires |a| == PokerHands.FullHand && |b| == PokerHands.FullHand && Hands.Distinct(a) && Hands.Distinct(b)
    ensures PokerHands.CompareSingles(a, b, [a[4], a[1]], [b[3], b[1]]) == Then(Ranks.CompareTo(a[2].rank, b[4].rank), 0)
  {
    assert PokerHands.SinglesFrom(a, b, [a[4], a[1]], [b[3], b[1]], 1, 3) == 0;
    assert PokerHands.SinglesFrom(a, b, [a[4], a[1]], [b[3], b[1]], 4, 4) == Then(Ranks.CompareTo(a[2].rank, b[4].rank), PokerHands.SinglesFrom(a, b, [a[4], a[1]], [b[3], b[1]], 1, 3));
  }

  /** Pairs ending at 3/1 in this hand and at 4/2 in the other: the loop compares, position by position, this hand's 4 with its own 2, 1 with 3, 0 with 0. */
  lemma TwoPairsPass3142(a: seq<Card>, b: seq<Card>)
    requires |a| == PokerHands.FullHand && |b| == PokerHands.FullHand && Hands.Distinct(a) && Hands.Distinct(b)
    ensures PokerHands.CompareSingles(a, b, [a[3], a[1]], [b[4], b[2]]) == Then(Ranks.CompareTo(a[4].rank, a[2].rank), Then(Ranks.CompareTo(a[1].rank, b[3].rank), Then(Ranks.CompareTo(a[0].rank, b[0].rank), 0)))
  {
    assert PokerHands.SinglesFrom(a, b, [a[3], a[1]], [b[4], b[2]], -1, -1) == 0;
    assert PokerHands.SinglesFrom(a, b, [a[3], a[1]], [b[4], b[2]], 0, 0) == Then(Ranks.CompareTo(a[0].rank, b[0].rank), PokerHands.SinglesFrom(a, b, [a[3], a[1]], [b[4], b[2]], -1, -1));
    assert PokerHands.SinglesFrom(a, b, [a[3], a[1]], [b[4], b[2]], 3, 1) == Then(Ranks.CompareTo(a[1].rank, b[3].rank), PokerHands.SinglesFrom(a, b, [a[3], a[1]], [b[4], b[2]], 0, 0));
    assert PokerHands.SinglesFrom(a, b, [a[3], a[1]], [b[4], b[2]], 4, 4) == Then(Ranks.CompareTo(a[4].rank, a[2].rank), PokerHands.SinglesFrom(a, b, [a[3], a[1]], [b[4], b[2]], 3, 1));
  }

  /** Pairs ending at 3/1 in this hand and at 4/1 in the other: the loop compares, position by position, this hand's 4 with its own 2, 1 with 3, 0 with 0. */
  lemma TwoPairsPass3141(a: seq<Card>, b: seq<Card>)
    requires |a| == PokerHands.FullHand && |b| == PokerHands.FullHand && Hands.Distinct(a) && Hands.Distinct(b)
    ensures PokerHands.CompareSingles(a, b, [a[3], a[1]], [b[4], b[1]]) == Then(Ranks.CompareTo(a[4].rank, a[2].rank), Then(Ranks.CompareTo(a[1].rank, b[3].rank), Then(Ranks.CompareTo(a[0].rank, b[0].rank), 0)))
  {
    assert PokerHands.SinglesFrom(a, b, [a[3], a[1]], [b[4], b[1]], -1, -1) == 0;
    assert PokerHands.SinglesFrom(a, b, [a[3], a[1]], [b[4], b[1]], 0, 0) == Then(Ranks.CompareTo(a[0].rank, b[0].rank), PokerHands.SinglesFrom(a, b, [a[3], a[1]], [b[4], b[1]], -1, -1));
    assert PokerHands.SinglesFrom(a, b, [a[3], a[1]], [b[4], b[1]], 3, 1) == Then(Ranks.CompareTo(a[1].rank, b[3].rank), PokerHands.SinglesFrom(a, b, [a[3], a[1]], [b[4], b[1]], 0, 0));
    assert PokerHands.SinglesFrom(a, b, [a[3], a[1]], [b[4], b[1]], 4, 4) == Then(Ranks.CompareTo(a[4].rank, a[2].rank), PokerHands.SinglesFrom(a, b, [a[3], a[1]], [b[4], b[1]], 3, 1));
  }

  /** Pairs ending at 3/1 in this hand and at 3/1 in the other: the loop compares, position by position, this hand's 4 with 4, 1 with its own 1, 0 with 0. */
  lemma TwoPairsPass3131(a: seq<Card>, b: seq<Card>)
    requires |a| == PokerHands.FullHand && |b| == PokerHands.FullHand && Hands.Distinct(a) && Hands.Distinct(b)
    ensures PokerHands.CompareSingles(a, b, [a[3], a[1]], [b[3], b[1]]) == Then(Ranks.CompareTo(a[4].rank, b[4].rank), Then(Ranks.CompareTo(a[1].rank, a[1].rank), Then(Ranks.CompareTo(a[0].rank, b[0].rank), 0)))
  {
    assert PokerHands.SinglesFrom(a, b, [a[3], a[1]], [b[3], b[1]], -1, -1) == 0;
    assert PokerHands.SinglesFrom(a, b, [a[3], a[1]], [b[3], b[1]], 0, 0) == Then(Ranks.CompareTo(a[0].rank, b[0].rank), PokerHands.SinglesFrom(a, b, [a[3], a[1]], [b[3], b[1]], -1, -1));
    assert PokerHands.SinglesFrom(a, b, [a[3], a[1]], [b[3], b[1]], 3, 3) == Then(Ranks.CompareTo(a[1].rank, a[1].rank), PokerHands.SinglesFrom(a, b, [a[3], a[1]], [b[3], b[1]], 0, 0));
    assert PokerHands.SinglesFrom(a, b, [a[3], a[1]], [b[3], b[1]], 4, 4) == Then(Ranks.CompareTo(a[4].rank, b[4].rank), PokerHands.SinglesFrom(a, b, [a[3], a[1]], [b[3], b[1]], 3, 3));
  }

  /** With the pair ending at 1 in this hand, the loop answers with opposite signs in the two directions. */
  lemma OnePairLoop1(a: seq<Card>, b: seq<Card>, qb: int)
    requires |a| == PokerHands.FullHand && |b| == PokerHands.FullHand && Hands.Distinct(a) && Hands.Distinct(b)
    requires 1 <= qb < PokerHands.FullHand && Steps(a, [1]) && Steps(b, [qb]) && a[1].rank == b[qb].rank
    ensures Opposite(PokerHands.CompareSingles(a, b, [a[1]], [b[qb]]), PokerHands.CompareSingles(b, a, [b[qb]], [a[1]]))
  {
    if qb == 1 {
      OnePairPass11(a, b);
      OnePairPass11(b, a);
    } else if qb == 2 {
      OnePairPass12(a, b);
      OnePairPass21(b, a);
    } else if qb == 3 {
      OnePairPass13(a, b);
      OnePairPass31(b, a);
    } else if qb == 4 {
      OnePairPass14(a, b);
      OnePairPass41(b, a);
    }
  }

  /** With the pair ending at 2 in this hand, the loop answers with opposite signs in the two directions. */
  lemma OnePairLoop2(a: seq<Card>, b: seq<Card>, qb: int)
    requires |a| == PokerHands.FullHand && |b| == PokerHands.FullHand && Hands.Distinct(a) && Hands.Distinct(b)
    requires 1 <= qb < PokerHands.FullHand && Steps(a, [2]) && Steps(b, [qb]) && a[2].rank == b[qb].rank
    ensures Opposite(PokerHands.CompareSingles(a, b, [a[2]], [b[qb]]), PokerHands.CompareSingles(b, a, [b[qb]], [a[2]]))
  {
    if qb == 1 {
      OnePairPass21(a, b);
      OnePairPass12(b, a);
    } else if qb == 2 {
      OnePairPass22(a, b);
      OnePairPass22(b, a);
    } else if qb == 3 {
      OnePairPass23(a, b);
      OnePairPass32(b, a);
    } else if qb == 4 {
      OnePairPass24(a, b);
      OnePairPass42(b, a);
    }
  }

  /** With the pair ending at 3 in this hand, the loop answers with opposite signs in the two directions. */
  lemma OnePairLoop3(a: seq<Card>, b: seq<Card>, qb: int)
    requires |a| == PokerHands.FullHand && |b| == PokerHands.FullHand && Hands.Distinct(a) && Hands.Distinct(b)
    requires 1 <= qb < PokerHands.FullHand && Steps(a, [3]) && Steps(b, [qb]) && a[3].rank == b[qb].rank
    ensures Opposite(PokerHands.CompareSingles(a, b, [a[3]], [b[qb]]), PokerHands.CompareSingles(b, a, [b[qb]], [a[3]]))
  {
    if qb == 1 {
      OnePairPass31(a, b);
      OnePairPass13(b, a);
    } else if qb == 2 {
      OnePairPass32(a, b);
      OnePairPass23(b, a);
    } else if qb == 3 {
      OnePairPass33(a, b);
      OnePairPass33(b, a);
    } else if qb == 4 {
      OnePairPass34(a, b);
      OnePairPass43(b, a);
    }
  }

  /** With the pair ending at 4 in this hand, the loop answers with opposite signs in the two directions. */
  lemma OnePairLoop4(a: seq<Card>, b: seq<Card>, qb: int)
    requires |a| == PokerHands.FullHand && |b| == PokerHands.FullHand && Hands.Distinct(a) && Hands.Distinct(b)
    requires 1 <= qb < PokerHands.FullHand && Steps(a, [4]) && Steps(b, [qb]) && a[4].rank == b[qb].rank
    ensures Opposite(PokerHands.CompareSingles(a, b, [a[4]], [b[qb]]), PokerHands.CompareSingles(b, a, [b[qb]], [a[4]]))
  {
    if qb == 1 {
      OnePairPass41(a, b);
      OnePairPass14(b, a);
    } else if qb == 2 {
      OnePairPass42(a, b);
      OnePairPass24(b, a);
    } else if qb == 3 {
      OnePairPass43(a, b);
      OnePairPass34(b, a);
    } else if qb == 4 {
      OnePairPass44(a, b);
      OnePairPass44(b, a);
    }
  }

  /** With the pairs ending at 4 and 2 in this hand, the loop answers with opposite signs in the two directions. */
  lemma TwoPairsLoop42(a: seq<Card>, b: seq<Card>, qb: int, qb': int)
    requires |a| == PokerHands.FullHand && |b| == PokerHands.FullHand && Hands.Distinct(a) && Hands.Distinct(b)
    requires TwoPairsLayout(qb, qb') && Steps(a, [4, 2]) && Steps(b, [qb, qb'])
    requires a[4].rank == b[qb].rank && a[2].rank == b[qb'].rank
    ensures Opposite(PokerHands.CompareSingles(a, b, [a[4], a[2]], [b[qb], b[qb']]), PokerHands.CompareSingles(b, a, [b[qb], b[qb']], [a[4], a[2]]))
  {
    if qb == 4 && qb' == 2 {
      TwoPairsPass4242(a, b);
      TwoPairsPass4242(b, a);
    } else if qb == 4 && qb' == 1 {
      TwoPairsPass4241(a, b);
      TwoPairsPass4142(b, a);
    } else if qb == 3 && qb' == 1 {
      TwoPairsPass4231(a, b);
      TwoPairsPass3142(b, a);
    }
  }

  /** With the pairs ending at 4 and 1 in this hand, the loop answers with opposite signs in the two directions. */
  lemma TwoPairsLoop41(a: seq<Card>, b: seq<Card>, qb: int, qb': int)
    requires |a| == PokerHands.FullHand && |b| == PokerHands.FullHand && Hands.Distinct(a) && Hands.Distinct(b)
    requires TwoPairsLayout(qb, qb') && Steps(a, [4, 1]) && Steps(b, [qb, qb'])
    requires a[4].rank == b[qb].rank && a[1].rank == b[qb'].rank
    ensures Opposite(PokerHands.CompareSingles(a, b, [a[4], a[1]], [b[qb], b[qb']]), PokerHands.CompareSingles(b, a, [b[qb], b[qb']], [a[4], a[1]]))
  {
    if qb == 4 && qb' == 2 {
      TwoPairsPass4142(a, b);
      TwoPairsPass4241(b, a);
    } else if qb == 4 && qb' == 1 {
      TwoPairsPass4141(a, b);
      TwoPairsPass4141(b, a);
    } else if qb == 3 && qb' == 1 {
      TwoPairsPass4131(a, b);
      TwoPairsPass3141(b, a);
    }
  }

  /** With the pairs ending at 3 and 1 in this hand, the loop answers with opposite signs in the two directions. */
  lemma TwoPairsLoop31(a: seq<Card>, b: seq<Card>, qb: int, qb': int)
    requires |a| == PokerHands.FullHand && |b| == PokerHands.FullHand && Hands.Distinct(a) && Hands.Distinct(b)
    requires TwoPairsLayout(qb, qb') && Steps(a, [3, 1]) && Steps(b, [qb, qb'])
    requires a[3].rank == b[qb].rank && a[1].rank == b[qb'].rank
    ensures Opposite(PokerHands.CompareSingles(a, b, [a[3], a[1]], [b[qb], b[qb']]), PokerHands.CompareSingles(b, a, [b[qb], b[qb']], [a[3], a[1]]))
  {
    if qb == 4 && qb' == 2 {
      TwoPairsPass3142(a, b);
      TwoPairsPass4231(b, a);
    } else if qb == 4 && qb' == 1 {
      TwoPairsPass3141(a, b);
      TwoPairsPass4131(b, a);
    } else if qb == 3 && qb' == 1 {
      TwoPairsPass3131(a, b);
      TwoPairsPass3131(b, a);
    }
  }
  // Where the pairs of a dealt hand are.

  /** In a sorted hand each rank repeats the one below it or is higher. */
  lemma RepeatOrRise(h: seq<Card>, i: int)
    requires Hands.Sorted(h) && 1 <= i < |h|
    ensures h[i - 1].rank == h[i].rank || Ranks.Value(h[i - 1].rank) < Ranks.Value(h[i].rank)
  {
    Hands.SortedRanks(h);
    Ranks.ValueIsOrdinalPlusTwo(h[i - 1].rank);
    Ranks.ValueIsOrdinalPlusTwo(h[i].rank);
  }

  /** A dealt one-pair hand: its pair ends at `q`, where the pair search stops, and every other rank rises. */
  lemma OnePairAt(h: seq<Card>) returns (q: int)
    requires Dealt(h) && PokerHands.Category(h) == Some(OnePair)
    ensures 1 <= q < PokerHands.FullHand && Steps(h, [q]) && PokerHands.FirstPair(h) == Some(h[q])
  {
    PokerHands.CategoryOfSortedFive(h);
    assert PokerHands.OnePairShape(h);
    RepeatOrRise(h, 1);
    RepeatOrRise(h, 2);
    RepeatOrRise(h, 3);
    RepeatOrRise(h, 4);
    q := if Hands.PairAt(h, 4) then 4 else if Hands.PairAt(h, 3) then 3 else if Hands.PairAt(h, 2) then 2 else 1;
    Hands.FindPairFindsHighest(h, 4, q);
  }

  /**
   * A dealt two-pair hand: its higher pair ends at `q`, where the first pair search stops,
   * its lower pair at `q'`, where the second stops, and every other rank rises.
   */
  lemma TwoPairsAt(h: seq<Card>) returns (q: int, q': int)
    requires Dealt(h) && PokerHands.Category(h) == Some(TwoPairs)
    ensures TwoPairsLayout(q, q') && Steps(h, [q, q'])
    ensures PokerHands.FirstPair(h) == Some(h[q]) && PokerHands.SecondPair(h) == Some(h[q'])
  {
    PokerHands.CategoryOfSortedFive(h);
    assert PokerHands.TwoPairShape(h);
    RepeatOrRise(h, 1);
    RepeatOrRise(h, 2);
    RepeatOrRise(h, 3);
    RepeatOrRise(h, 4);
    if Hands.PairAt(h, 4) {
      q, q' := 4, if Hands.PairAt(h, 2) then 2 else 1;
    } else {
      q, q' := 3, 1;
    }
    Hands.FindPairFindsHighest(h, 4, q);
    Hands.IndexOfDistinct(h, q);
    Hands.FindPairFindsHighest(h, q - 2, q');
  }

  // A number that `compareTo` follows.

  /** 13 to the fifth: one more than the largest five-digit number in base 13. */
  const Spread: int := 371293

  /** A card's rank as a digit, from 0 for Two to 12 for Ace. */
  function Digit(c: Card): int {
    Ranks.Ordinal(c.rank)
  }

  /** Five ranks read as a number in base 13, the top card the most significant digit. */
  function RankNumber(h: seq<Card>): (n: int)
    requires |h| == PokerHands.FullHand
    ensures 0 <= n < Spread
  {
    Digit(h[0]) + 13 * Digit(h[1]) + 169 * Digit(h[2]) + 2197 * Digit(h[3]) + 28561 * Digit(h[4])
  }

  /** What the tie-break of the hand's category reads: the middle card, the five ranks, or the pair ranks. */
  function Detail(h: seq<Card>): (d: int)
    requires |h| == PokerHands.FullHand
    ensures 0 <= d < Spread
  {
    var category := PokerHands.Category(h).value;
    if category == Flush || category == NoRank then RankNumber(h)
    else if category == OnePair then
      if PokerHands.FirstPair(h).Some? then Digit(PokerHands.FirstPair(h).value) else 0
    else if category == TwoPairs then
      if PokerHands.FirstPair(h).Some? && PokerHands.SecondPair(h).Some?
      then 13 * Digit(PokerHands.FirstPair(h).value) + Digit(PokerHands.SecondPair(h).value)
      else 0
    else Digit(h[2])
  }

  /** The category, then the detail its tie-break reads, as one number. */
  function Score(h: seq<Card>): int
    requires |h| == PokerHands.FullHand
  {
    PokerRanks.Ordinal(PokerHands.Category(h).value) * Spread + Detail(h)
  }

  /** A one-pair or a two-pair hand: the categories whose tie-break ends in the single-card loop. */
  predicate PairTie(h: seq<Card>)
    requires |h| == PokerHands.FullHand
  {
    PokerHands.Category(h) == Some(OnePair) || PokerHands.Category(h) == Some(TwoPairs)
  }

  /** Rank numbers that agree in the digits above `k` and differ at `k` are ordered by the digit at `k`. */
  lemma DigitDecides(a: seq<Card>, b: seq<Card>, k: int)
    requires |a| == PokerHands.FullHand && |b| == PokerHands.FullHand && 0 <= k < PokerHands.FullHand
    requires Digit(a[k]) != Digit(b[k]) && forall m :: k < m < PokerHands.FullHand ==> Digit(a[m]) == Digit(b[m])
    ensures Digit(a[k]) < Digit(b[k]) <==> RankNumber(a) < RankNumber(b)
  {
    if k == 4 {
    } else if k == 3 {
      assert Digit(a[4]) == Digit(b[4]);
    } else if k == 2 {
      assert Digit(a[4]) == Digit(b[4]) && Digit(a[3]) == Digit(b[3]);
    } else if k == 1 {
      assert Digit(a[4]) == Digit(b[4]) && Digit(a[3]) == Digit(b[3]) && Digit(a[2]) == Digit(b[2]);
    } else {
      assert Digit(a[4]) == Digit(b[4]) && Digit(a[3]) == Digit(b[3]) && Digit(a[2]) == Digit(b[2]) && Digit(a[1]) == Digit(b[1]);
    }
  }

  /** The highest position where two hands' ranks differ decides as their rank numbers do; no such position, equal numbers. */
  lemma TopDifferenceFollowsRankNumber(a: seq<Card>, b: seq<Card>)
    requires |a| == PokerHands.FullHand && |b| == PokerHands.FullHand
    ensures var k := PokerHands.TopDifference(a, b, PokerHands.FullHand - 1);
      (k < 0 <==> RankNumber(a) == RankNumber(b))
      && (k >= 0 ==> (Ranks.CompareTo(a[k].rank, b[k].rank) < 0 <==> RankNumber(a) < RankNumber(b)))
  {
    var k := PokerHands.TopDifference(a, b, PokerHands.FullHand - 1);
    if k >= 0 {
      Ranks.ValueIsOrdinalPlusTwo(a[k].rank);
      Ranks.ValueIsOrdinalPlusTwo(b[k].rank);
      DigitDecides(a, b, k);
    } else {
      assert forall m :: 0 <= m < PokerHands.FullHand ==> Digit(a[m]) == Digit(b[m]);
    }
  }

  /** Full hands of different categories: the category terms of their scores differ and decide. */
  lemma ScoresOfCategories(a: seq<Card>, b: seq<Card>)
    requires |a| == PokerHands.FullHand && |b| == PokerHands.FullHand && PokerHands.Category(a) != PokerHands.Category(b)
    ensures PokerHands.ComparisonDefined(a, b) && Score(a) != Score(b)
    ensures Score(a) < Score(b) <==> PokerHands.CompareTo(a, b) < 0
  {
    PokerHands.CategoryDecides(a, b);
  }

  /** Equal straights, straight flushes, fours, full houses and threes: the middle card's rank is the detail and decides. */
  lemma MiddleCardDetail(a: seq<Card>, b: seq<Card>)
    requires |a| == PokerHands.FullHand && |b| == PokerHands.FullHand && PokerHands.Category(a) == PokerHands.Category(b)
    requires PokerHands.Category(a).value in {StraightFlush, Straight, FourOfAKind, FullHouse, ThreeOfAKind}
    ensures PokerHands.ComparisonDefined(a, b) && Detail(a) == Digit(a[2]) && Detail(b) == Digit(b[2])
    ensures Detail(a) < Detail(b) <==> PokerHands.CompareTo(a, b) < 0
    ensures Detail(a) == Detail(b) <==> PokerHands.CompareTo(a, b) == 0
  {
    PokerHands.MiddleCardDecides(a, b);
    Ranks.ValueIsOrdinalPlusTwo(a[2].rank);
    Ranks.ValueIsOrdinalPlusTwo(b[2].rank);
  }

  /** Equal flushes and no-rank hands: the rank number is the detail and decides. */
  lemma RankNumberDetail(a: seq<Card>, b: seq<Card>)
    requires |a| == PokerHands.FullHand && |b| == PokerHands.FullHand && PokerHands.Category(a) == PokerHands.Category(b)
    requires PokerHands.Category(a) == Some(Flush) || PokerHands.Category(a) == Some(NoRank)
    ensures PokerHands.ComparisonDefined(a, b) && Detail(a) == RankNumber(a) && Detail(b) == RankNumber(b)
    ensures Detail(a) < Detail(b) <==> PokerHands.CompareTo(a, b) < 0
    ensures Detail(a) == Detail(b) <==> PokerHands.CompareTo(a, b) == 0
  {
    PokerHands.SingleCardsDecide(a, b);
    TopDifferenceFollowsRankNumber(a, b);
  }

  /** Equal one-pair hands: the pair's rank is the detail; equal details leave the single-card loop to decide. */
  lemma OnePairDetail(a: seq<Card>, b: seq<Card>)
    requires Dealt(a) && Dealt(b) && PokerHands.Category(a) == Some(OnePair) && PokerHands.Category(b) == Some(OnePair)
    ensures PokerHands.ComparisonDefined(a, b) && PokerHands.FirstPair(a).Some? && PokerHands.FirstPair(b).Some?
    ensures Detail(a) == Digit(PokerHands.FirstPair(a).value) && Detail(b) == Digit(PokerHands.FirstPair(b).value)
    ensures Detail(a) < Detail(b) ==> PokerHands.CompareTo(a, b) < 0
    ensures Detail(a) > Detail(b) ==> PokerHands.CompareTo(a, b) > 0
    ensures Detail(a) == Detail(b) ==> PokerHands.FirstPair(a).value.rank == PokerHands.FirstPair(b).value.rank
  {
    PokerHands.PairLookupsSucceed(a);
    PokerHands.PairLookupsSucceed(b);
    PokerHands.OnePairDecides(a, b);
    Ranks.ValueIsOrdinalPlusTwo(PokerHands.FirstPair(a).value.rank);
    Ranks.ValueIsOrdinalPlusTwo(PokerHands.FirstPair(b).value.rank);
  }

  /** Equal two-pair hands: the two pair ranks are the detail; equal details leave the single-card loop to decide. */
  lemma TwoPairsDetail(a: seq<Card>, b: seq<Card>)
    requires Dealt(a) && Dealt(b) && PokerHands.Category(a) == Some(TwoPairs) && PokerHands.Category(b) == Some(TwoPairs)
    ensures PokerHands.ComparisonDefined(a, b) && PokerHands.FirstPair(a).Some? && PokerHands.FirstPair(b).Some?
    ensures PokerHands.SecondPair(a).Some? && PokerHands.SecondPair(b).Some?
    ensures Detail(a) < Detail(b) ==> PokerHands.CompareTo(a, b) < 0
    ensures Detail(a) > Detail(b) ==> PokerHands.CompareTo(a, b) > 0
    ensures Detail(a) == Detail(b) ==>
      PokerHands.FirstPair(a).value.rank == PokerHands.FirstPair(b).value.rank
      && PokerHands.SecondPair(a).value.rank == PokerHands.SecondPair(b).value.rank
  {
    PokerHands.PairLookupsSucceed(a);
    PokerHands.PairLookupsSucceed(b);
    PokerHands.TwoPairsDecide(a, b);
    Ranks.ValueIsOrdinalPlusTwo(PokerHands.FirstPair(a).value.rank);
    Ranks.ValueIsOrdinalPlusTwo(PokerHands.FirstPair(b).value.rank);
    Ranks.ValueIsOrdinalPlusTwo(PokerHands.SecondPair(a).value.rank);
    Ranks.ValueIsOrdinalPlusTwo(PokerHands.SecondPair(b).value.rank);
  }

  /**
   * Dealt hands compare as their scores do, except that pair hands with equal scores, whose
   * pairs then have the same ranks, go on to the single-card loop.
   */
  lemma ScoreDecides(a: seq<Card>, b: seq<Card>)
    requires Dealt(a) && Dealt(b)
    ensures PokerHands.ComparisonDefined(a, b)
    ensures Score(a) < Score(b) ==> PokerHands.CompareTo(a, b) < 0
    ensures Score(a) > Score(b) ==> PokerHands.CompareTo(a, b) > 0
    ensures Score(a) == Score(b) ==> PokerHands.Category(a) == PokerHands.Category(b)
    ensures Score(a) == Score(b) && !PairTie(a) ==> PokerHands.CompareTo(a, b) == 0
    ensures Score(a) == Score(b) && PairTie(a) ==>
      PokerHands.FirstPair(a).Some? && PokerHands.FirstPair(b).Some?
      && PokerHands.FirstPair(a).value.rank == PokerHands.FirstPair(b).value.rank
    ensures Score(a) == Score(b) && PokerHands.Category(a) == Some(TwoPairs) ==>
      PokerHands.SecondPair(a).Some? && PokerHands.SecondPair(b).Some?
      && PokerHands.SecondPair(a).value.rank == PokerHands.SecondPair(b).value.rank
  {
    var category := PokerHands.Category(a).value;
    if PokerHands.Category(a) != PokerHands.Category(b) {
      ScoresOfCategories(a, b);
    } else if category == Flush || category == NoRank {
      RankNumberDetail(a, b);
    } else if category == OnePair {
      OnePairDetail(a, b);
    } else if category == TwoPairs {
      TwoPairsDetail(a, b);
    } else {
      MiddleCardDetail(a, b);
    }
  }

  // The contract of a comparator.

  /** Comparing two dealt hands both ways round gives opposite signs, or zero both times. */
  lemma CompareAntisymmetric(a: seq<Card>, b: seq<Card>)
    requires Dealt(a) && Dealt(b)
    ensures PokerHands.ComparisonDefined(a, b) && PokerHands.ComparisonDefined(b, a)
    ensures Opposite(PokerHands.CompareTo(a, b), PokerHands.CompareTo(b, a))
  {
    ScoreDecides(a, b);
    ScoreDecides(b, a);
    if Score(a) == Score(b) && PokerHands.Category(a) == Some(OnePair) {
      var qa := OnePairAt(a);
      var qb := OnePairAt(b);
      PokerHands.OnePairDecides(a, b);
      PokerHands.OnePairDecides(b, a);
      if qa == 1 {
        OnePairLoop1(a, b, qb);
      } else if qa == 2 {
        OnePairLoop2(a, b, qb);
      } else if qa == 3 {
        OnePairLoop3(a, b, qb);
      } else {
        OnePairLoop4(a, b, qb);
      }
    } else if Score(a) == Score(b) && PokerHands.Category(a) == Some(TwoPairs) {
      var qa, qa' := TwoPairsAt(a);
      var qb, qb' := TwoPairsAt(b);
      PokerHands.TwoPairsDecide(a, b);
      PokerHands.TwoPairsDecide(b, a);
      if qa' == 2 {
        TwoPairsLoop42(a, b, qb, qb');
      } else if qa == 4 {
        TwoPairsLoop41(a, b, qb, qb');
      } else {
        TwoPairsLoop31(a, b, qb, qb');
      }
    }
  }

  /** Among any five suits two are the same: there are only four. */
  lemma FiveSuitsRepeat(s: seq<Suits.Suit>)
    requires |s| == 5
    ensures exists i, j :: 0 <= i < j < |s| && s[i] == s[j]
  {
    var o := seq(5, i requires 0 <= i < 5 => Suits.Ordinal(s[i]));
    assert o[0] == o[1] || o[0] == o[2] || o[0] == o[3] || o[0] == o[4] || o[1] == o[2]
      || o[1] == o[3] || o[1] == o[4] || o[2] == o[3] || o[2] == o[4] || o[3] == o[4];
  }

  /** Five different cards do not all have one rank. */
  lemma FiveCardsTwoRanks(cards: seq<Card>)
    requires |cards| == 5 && forall i, j :: 0 <= i < j < 5 ==> cards[i] != cards[j]
    ensures exists k :: 0 <= k < 5 && cards[k].rank != cards[0].rank
  {
    var suits := seq(5, i requires 0 <= i < 5 => cards[i].suit);
    FiveSuitsRepeat(suits);
    var i, j :| 0 <= i < j < 5 && suits[i] == suits[j];
    assert cards[i].rank != cards[j].rank;
    if cards[i].rank != cards[0].rank {
      assert 0 <= i < 5 && cards[i].rank != cards[0].rank;
    } else {
      assert 0 <= j < 5 && cards[j].rank != cards[0].rank;
    }
  }

  /** Two neighbouring cards of one rank in each of three hands with no card in common: the three ranks are not all the same. */
  lemma PairsOfThreeHands(a: seq<Card>, b: seq<Card>, c: seq<Card>, qa: int, qb: int, qc: int)
    requires 1 <= qa < |a| && 1 <= qb < |b| && 1 <= qc < |c|
    requires a[qa - 1] != a[qa] && b[qb - 1] != b[qb]
    requires a[qa - 1].rank == a[qa].rank && b[qb - 1].rank == b[qb].rank
    requires Disjoint(a, b) && Disjoint(b, c) && Disjoint(a, c)
    ensures a[qa].rank != b[qb].rank || b[qb].rank != c[qc].rank
  {
    assert a[qa - 1] in a && a[qa] in a && b[qb - 1] in b && b[qb] in b;
    assert a[qa - 1] !in b && a[qa] !in b && a[qa - 1] !in c && a[qa] !in c && b[qb - 1] !in c && b[qb] !in c;
    assert c[qc] in c;
    FiveCardsTwoRanks([a[qa - 1], a[qa], b[qb - 1], b[qb], c[qc]]);
  }

  /**
   * Three dealt hands with no card in common cannot all hold a pair of one rank: that would
   * take six cards of that rank, and the deck has four.
   */
  lemma NoRankPairedThrice(a: seq<Card>, b: seq<Card>, c: seq<Card>)
    requires Dealt(a) && Dealt(b) && Dealt(c) && Disjoint(a, b) && Disjoint(b, c) && Disjoint(a, c)
    requires PairTie(a) && PairTie(b) && PairTie(c)
    ensures PokerHands.FirstPair(a).Some? && PokerHands.FirstPair(b).Some? && PokerHands.FirstPair(c).Some?
    ensures PokerHands.FirstPair(a).value.rank != PokerHands.FirstPair(b).value.rank
      || PokerHands.FirstPair(b).value.rank != PokerHands.FirstPair(c).value.rank
  {
    var qa := FirstPairEnd(a);
    var qb := FirstPairEnd(b);
    var qc := FirstPairEnd(c);
    PairsOfThreeHands(a, b, c, qa, qb, qc);
  }

  /** Where the first pair of a dealt pair hand ends: the position the pair search stops at, whose rank repeats below it. */
  lemma FirstPairEnd(h: seq<Card>) returns (q: int)
    requires Dealt(h) && PairTie(h)
    ensures 1 <= q < PokerHands.FullHand && PokerHands.FirstPair(h) == Some(h[q]) && h[q - 1].rank == h[q].rank
  {
    if PokerHands.Category(h) == Some(OnePair) {
      q := OnePairAt(h);
      assert StepAt(h, [q], q);
    } else {
      var q';
      q, q' := TwoPairsAt(h);
      assert StepAt(h, [q, q'], q);
    }
  }

  /** Dealt hands with no card in common: one at most the next, and that at most a third, put the first at most the third. */
  lemma CompareTransitive(a: seq<Card>, b: seq<Card>, c: seq<Card>)
    requires Dealt(a) && Dealt(b) && Dealt(c) && Disjoint(a, b) && Disjoint(b, c) && Disjoint(a, c)
    requires PokerHands.ComparisonDefined(a, b) && PokerHands.ComparisonDefined(b, c)
    requires PokerHands.CompareTo(a, b) <= 0 && PokerHands.CompareTo(b, c) <= 0
    ensures PokerHands.ComparisonDefined(a, c) && PokerHands.CompareTo(a, c) <= 0
  {
    ScoreDecides(a, b);
    ScoreDecides(b, c);
    ScoreDecides(a, c);
    if Score(a) == Score(c) && PairTie(a) {
      NoRankPairedThrice(a, b, c);
    }
  }
}
