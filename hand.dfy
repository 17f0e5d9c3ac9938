/**
 * A hand of cards: a list bounded by the number of cards in a full hand, sorted in card
 * order at the moment it becomes full, with the read-only scans the poker evaluator uses.
 */
module Hands {
  import opened Options
  import Ranks
  import Cards
  import Sorting

  type Card = Cards.Card

  /** Ascending in card order (`Card.compareTo`). */
  predicate Sorted(cs: seq<Card>) {
    forall i, j {:trigger Cards.CompareTo(cs[i], cs[j])} :: 0 <= i < j < |cs| ==> Cards.CompareTo(cs[i], cs[j]) <= 0
  }

  lemma SortedByKey(cs: seq<Card>)
    ensures Sorting.SortedBy(cs, Cards.Key) <==> Sorted(cs)
  {
    if Sorting.SortedBy(cs, Cards.Key) {
      forall i, j | 0 <= i < j < |cs| ensures Cards.CompareTo(cs[i], cs[j]) <= 0 {
        assert Cards.Key(cs[i]) <= Cards.Key(cs[j]);
      }
    }
    if Sorted(cs) {
      forall i, j | 0 <= i < j < |cs| ensures Cards.Key(cs[i]) <= Cards.Key(cs[j]) {
        assert Cards.CompareTo(cs[i], cs[j]) <= 0;
      }
    }
  }

  /** `Collections.sort` on a list of cards: the same cards, ascending. */
  function SortCards(cs: seq<Card>): (r: seq<Card>)
    ensures Sorted(r) && multiset(r) == multiset(cs)
  {
    var r := Sorting.SortBy(cs, Cards.Key);
    SortedByKey(r);
    r
  }

  /** Two ascending arrangements of the same cards are the same list. */
  lemma {:induction false} SortedUnique(r: seq<Card>, r': seq<Card>)
    requires Sorted(r) && Sorted(r') && multiset(r) == multiset(r')
    ensures r == r'
  {
    SortedByKey(r);
    SortedByKey(r');
    forall i, j | 0 <= i < |r| && 0 <= j < |r| && Cards.Key(r[i]) == Cards.Key(r[j]) ensures r[i] == r[j] {
      assert Cards.CompareTo(r[i], r[j]) == 0;
    }
    Sorting.SortedPermutationUnique(r, r', Cards.Key);
  }

  /** Every ascending arrangement of the same cards is the one `SortCards` returns: sorting has one possible outcome. */
  lemma SortCardsUnique(cs: seq<Card>, r: seq<Card>)
    requires Sorted(r) && multiset(r) == multiset(cs)
    ensures r == SortCards(cs)
  {
    SortedUnique(r, SortCards(cs));
  }

  /** Removing a card keeps the others in their order, so an ascending list stays ascending. */
  lemma RemovePreservesSorted(cs: seq<Card>, p: nat)
    requires Sorted(cs) && p < |cs|
    ensures Sorted(cs[..p] + cs[p + 1..])
  {
    var r := cs[..p] + cs[p + 1..];
    forall i, j | 0 <= i < j < |r| ensures Cards.CompareTo(r[i], r[j]) <= 0 {
      var i' := if i < p then i else i + 1;
      var j' := if j < p then j else j + 1;
      assert r[i] == cs[i'] && r[j] == cs[j'];
    }
  }

  /** Sorted by card order means sorted by rank. */
  lemma SortedRanks(cs: seq<Card>)
    requires Sorted(cs)
    ensures forall i, j :: 0 <= i <= j < |cs| ==> Ranks.Ordinal(cs[i].rank) <= Ranks.Ordinal(cs[j].rank)
  {
    forall i, j | 0 <= i < j < |cs| ensures Ranks.Ordinal(cs[i].rank) <= Ranks.Ordinal(cs[j].rank) {
      assert Cards.CompareTo(cs[i], cs[j]) <= 0;
    }
  }

  /**
   * Positions `i` and `i + 1` are in sequence: the next rank follows, or, at the last two
   * positions only, Five is followed by Ace.
   */
  predicate ConsecutiveAt(cs: seq<Card>, i: int)
    requires 0 <= i < |cs| - 1
  {
    Ranks.Next(cs[i].rank) == cs[i + 1].rank
    || (i == |cs| - 2 && cs[i].rank == Ranks.Five && cs[i + 1].rank == Ranks.Ace)
  }

  predicate IsConsecutive(cs: seq<Card>) {
    forall i :: 0 <= i < |cs| - 1 ==> ConsecutiveAt(cs, i)
  }

  predicate IsSameSuit(cs: seq<Card>) {
    forall i :: 1 <= i < |cs| ==> cs[i].suit == cs[0].suit
  }

  /** The number of positions from `j` on whose card has the rank of the card at `i`. */
  function CountEqual(cs: seq<Card>, i: nat, j: nat): nat
    requires i < |cs|
    decreases |cs| - j
  {
    if j >= |cs| then 0
    else (if cs[i].rank == cs[j].rank then 1 else 0) + CountEqual(cs, i, j + 1)
  }

  /** The number of equal-rank pairs of positions `i <= a < b`. */
  function PairsFrom(cs: seq<Card>, i: nat): nat
    decreases |cs| - i
  {
    if i >= |cs| then 0 else CountEqual(cs, i, i + 1) + PairsFrom(cs, i + 1)
  }

  /** The number of index pairs `a < b` whose cards have the same rank. */
  function PairCount(cs: seq<Card>): nat {
    PairsFrom(cs, 0)
  }

  /** Positions `i - 1` and `i` hold cards of the same rank. */
  predicate PairAt(cs: seq<Card>, i: int)
    requires 1 <= i < |cs|
  {
    cs[i - 1].rank == cs[i].rank
  }

  /**
   * `findRankPairCardDescending`: scanning down from `start`, the card at the first (so the
   * highest) position `i >= 1` whose rank equals that of position `i - 1`; None when there is none.
   */
  function FindPairDescending(cs: seq<Card>, start: int): (r: Option<Card>)
    requires start <= 0 || start < |cs|
    ensures r.Some? ==> r.value in cs
    decreases start
  {
    if start <= 0 then None
    else if cs[start].rank == cs[start - 1].rank then Some(cs[start])
    else FindPairDescending(cs, start - 1)
  }

  /** The pair finder fails exactly when no position up to `start` pairs with the one below, and otherwise returns the highest. */
  lemma {:induction false} FindPairDescendingFinds(cs: seq<Card>, start: int)
    requires start <= 0 || start < |cs|
    ensures FindPairDescending(cs, start).None? <==> forall i :: 1 <= i <= start ==> !PairAt(cs, i)
    ensures FindPairDescending(cs, start).Some? ==> exists i :: (1 <= i <= start && PairAt(cs, i)
      && FindPairDescending(cs, start).value == cs[i] && forall k :: i < k <= start ==> !PairAt(cs, k))
    decreases start
  {
    if start > 0 {
      if cs[start].rank == cs[start - 1].rank {
        assert PairAt(cs, start);
      } else {
        assert !PairAt(cs, start);
        FindPairDescendingFinds(cs, start - 1);
      }
    }
  }

  /** The pair finder stops at the highest pair at or below `start`. */
  lemma {:induction false} FindPairFindsHighest(cs: seq<Card>, start: int, i: int)
    requires 1 <= i <= start < |cs| && PairAt(cs, i)
    requires forall k :: i < k <= start ==> !PairAt(cs, k)
    ensures FindPairDescending(cs, start) == Some(cs[i])
    decreases start
  {
    if start > i {
      assert !PairAt(cs, start);
      FindPairFindsHighest(cs, start - 1, i);
    }
  }

  /** No card occurs twice. */
  predicate Distinct(cs: seq<Card>) {
    forall i, j :: 0 <= i < j < |cs| ==> cs[i] != cs[j]
  }

  /** `List.indexOf`: the first position holding `c`, or -1 when there is none. */
  function IndexOf(cs: seq<Card>, c: Card): (i: int)
    ensures -1 <= i < |cs|
    ensures i == -1 <==> c !in cs
    ensures i >= 0 ==> cs[i] == c && forall k :: 0 <= k < i ==> cs[k] != c
  {
    if cs == [] then -1
    else if cs[0] == c then 0
    else
      var j := IndexOf(cs[1..], c);
      if j < 0 then -1 else j + 1
  }

  /** In a list without repeats, a card's first position is its only position. */
  lemma IndexOfDistinct(cs: seq<Card>, i: int)
    requires Distinct(cs) && 0 <= i < |cs|
    ensures IndexOf(cs, cs[i]) == i
  {
  }

  /** A hand of cards; `capacity` is the number of cards in a full hand. */
  class Hand {
    const capacity: nat
    var cards: seq<Card>

    /** Never more than `capacity` cards, and a full hand is sorted. */
    ghost predicate Valid()
      reads this
    {
      |cards| <= capacity && (|cards| == capacity ==> Sorted(cards))
    }

    /** An empty hand whose full size is `capacity`. */
    constructor (capacity: nat)
      ensures this.capacity == capacity && cards == [] && Valid()
    {
      this.capacity := capacity;
      cards := [];
    }

    function IsFullHand(): (full: bool)
      reads this
      ensures full <==> |cards| == capacity
    {
      |cards| == capacity
    }

    /** `getCard`: the card at `position`, or None past the end. */
    function GetCard(position: nat): (c: Option<Card>)
      reads this
      ensures c.Some? <==> position < |cards|
      ensures c.Some? ==> c.value == cards[position]
    {
      if position < |cards| then Some(cards[position]) else None
    }

    /** `sort`: put the cards in ascending card order. */
    method Sort()
      modifies this
      ensures cards == SortCards(old(cards))
      ensures Sorted(cards) && multiset(cards) == multiset(old(cards)) && |cards| == old(|cards|)
    {
      cards := SortCards(cards);
      assert |cards| == |multiset(cards)|;
    }

    /**
     * `addCard`: append `card` unless the hand is full, and sort the hand when that append
     * fills it; reports whether the card went in. A hand filled this way is, by
     * `SortCardsUnique`, exactly `SortCards(old(cards) + [card])`.
     */
    method AddCard(card: Card) returns (added: bool)
      requires Valid()
      modifies this
      ensures Valid()
      ensures added <==> old(|cards|) < capacity
      ensures !added ==> cards == old(cards)
      ensures added ==> |cards| == old(|cards|) + 1 && multiset(cards) == multiset(old(cards)) + multiset{card}
      ensures added && |cards| < capacity ==> cards == old(cards) + [card]
      ensures added && |cards| == capacity ==> Sorted(cards)
    {
      added := false;
      if !IsFullHand() {
        cards := cards + [card];
        added := true;
        if IsFullHand() {
          Sort();
        }
      }
    }

    /** `removeCard`: delete the card at `position`, keeping the others in order; nothing happens past the end. */
    method RemoveCard(position: nat)
      requires Valid()
      modifies this
      ensures Valid()
      ensures position < old(|cards|) ==> cards == old(cards[..position] + cards[position + 1..])
      ensures position >= old(|cards|) ==> cards == old(cards)
    {
      if |cards| > position {
        if |cards| == capacity {
          RemovePreservesSorted(cards, position);
        }
        cards := cards[..position] + cards[position + 1..];
      }
    }

    /** `getIsConsecutiveRanks`, on a full hand. */
    method GetIsConsecutiveRanks() returns (consecutive: bool)
      requires |cards| == capacity
      ensures consecutive == IsConsecutive(cards)
    {
      consecutive := true;
      var i := 0;
      while i < capacity - 1
        invariant 0 <= i && (i <= capacity - 1 || i == 0)
        invariant consecutive
        invariant forall k :: 0 <= k < i ==> ConsecutiveAt(cards, k)
      {
        if Ranks.Next(cards[i].rank) != cards[i + 1].rank {
          if !(i == capacity - 2 && cards[i].rank == Ranks.Five && cards[i + 1].rank == Ranks.Ace) {
            assert !ConsecutiveAt(cards, i);
            consecutive := false;
            break;
          }
        }
        i := i + 1;
      }
    }

    /** `getIsSameSuit`, on a full hand. */
    method GetIsSameSuit() returns (same: bool)
      requires |cards| == capacity
      ensures same == IsSameSuit(cards)
    {
      same := true;
      var i := 1;
      while i < capacity
        invariant 1 <= i <= capacity || (capacity == 0 && i == 1)
        invariant same
        invariant forall k :: 1 <= k < i ==> cards[k].suit == cards[0].suit
      {
        if cards[0].suit != cards[i].suit {
          same := false;
          break;
        }
        i := i + 1;
      }
    }

    /** `getNumSameRankInTwoWayComparisons`, on a full hand. */
    method GetNumSameRankInTwoWayComparisons() returns (numSameRank: nat)
      requires |cards| == capacity
      ensures numSameRank == PairCount(cards)
    {
      numSameRank := 0;
      var i := 0;
      while i < capacity
        invariant 0 <= i <= capacity
        invariant numSameRank + PairsFrom(cards, i) == PairCount(cards)
      {
        var j := i + 1;
        while j < capacity
          invariant i + 1 <= j <= capacity
          invariant numSameRank + CountEqual(cards, i, j) + PairsFrom(cards, i + 1) == PairCount(cards)
        {
          if cards[i].rank == cards[j].rank {
            numSameRank := numSameRank + 1;
          }
          j := j + 1;
        }
        i := i + 1;
      }
    }

    /** `findRankPairCardDescending`; a positive `start` must lie inside the hand, as `getCard(start)` is dereferenced. */
    method FindRankPairCardDescending(start: int) returns (card: Option<Card>)
      requires start <= 0 || start < |cards|
      ensures card == FindPairDescending(cards, start)
    {
      card := None;
      var i := start;
      while i > 0
        invariant i <= start && card == None
        invariant FindPairDescending(cards, i) == FindPairDescending(cards, start)
      {
        var upper := GetCard(i);
        var lower := GetCard(i - 1);
        if upper.value.rank == lower.value.rank {
          card := upper;
          break;
        }
        i := i - 1;
      }
    }
  }
}
