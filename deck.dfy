/**
 * A deck of cards: a list drawn from the front and added to at the back. A new deck is
 * either empty (a discard pile) or holds the 52 cards, shuffled.
 */
module Decks {
  import opened Options
  import Ranks
  import Suits
  import Cards

  type Card = Cards.Card

  /** The number of cards in a full deck: every rank in every suit. */
  const DeckSize: nat := 52

  /** The 52 cards in the order the constructor adds them: rank by rank, each rank in suit order. */
  function FullDeck(): (d: seq<Card>)
    ensures |d| == DeckSize == |Ranks.Values| * |Suits.Values|
  {
    seq(DeckSize, i requires 0 <= i < DeckSize => Cards.Card(Ranks.Values[i / 4], Suits.Values[i % 4]))
  }

  /** The constructor's `s`-th card of rank number `r` comes next in the unshuffled deck. */
  lemma FullDeckAt(r: int, s: int)
    requires 0 <= r < |Ranks.Values| && 0 <= s < |Suits.Values|
    ensures FullDeck()[..4 * r + s + 1] == FullDeck()[..4 * r + s] + [Cards.Card(Ranks.Values[r], Suits.Values[s])]
  {
    DivideByFour(r, s);
    TakeOneMore(FullDeck(), 4 * r + s);
  }

  /** The first `n + 1` elements of `xs` are its first `n` and then `xs[n]`. */
  lemma TakeOneMore<T>(xs: seq<T>, n: int)
    requires 0 <= n < |xs|
    ensures xs[..n + 1] == xs[..n] + [xs[n]]
  {
  }

  /** `4 * r + s` with `s` a suit number splits back into `r` and `s`. */
  lemma DivideByFour(r: int, s: int)
    requires 0 <= s < 4
    ensures (4 * r + s) / 4 == r && (4 * r + s) % 4 == s
  {
  }

  /** Position `i` of the unshuffled deck holds the card whose sort key is `i`. */
  lemma FullDeckKey(i: int)
    requires 0 <= i < DeckSize
    ensures Cards.Key(FullDeck()[i]) == i
  {
    Ranks.OrdinalOfValues(i / 4);
    Suits.OrdinalOfValues(i % 4);
  }

  /** The unshuffled deck is in strictly increasing card order, and every card is in it. */
  lemma FullDeckInCardOrder()
    ensures forall i, j :: 0 <= i < j < DeckSize ==> Cards.Key(FullDeck()[i]) < Cards.Key(FullDeck()[j])
    ensures forall c: Card :: c in FullDeck()
  {
    forall i, j | 0 <= i < j < DeckSize
      ensures Cards.Key(FullDeck()[i]) < Cards.Key(FullDeck()[j])
    {
      FullDeckKey(i);
      FullDeckKey(j);
    }
    forall c: Card ensures c in FullDeck() {
      var k := Cards.Key(c);
      FullDeckKey(k);
      assert Cards.CompareTo(c, FullDeck()[k]) == 0;
    }
  }

  /** A new deck holds each of the 52 cards exactly once. */
  lemma FullDeckHoldsEveryCardOnce(c: Card)
    ensures multiset(FullDeck())[c] == 1
  {
    FullDeckInCardOrder();
    var i := Cards.Key(c);
    FullDeckKey(i);
    assert Cards.CompareTo(c, FullDeck()[i]) == 0;
    CountOfKeyed(FullDeck(), i);
  }

  /** In a sequence in strictly increasing key order, the element at `i` occurs once. */
  lemma {:induction false} CountOfKeyed(s: seq<Card>, i: int)
    requires 0 <= i < |s|
    requires forall m, n :: 0 <= m < n < |s| ==> Cards.Key(s[m]) < Cards.Key(s[n])
    ensures multiset(s)[s[i]] == 1
  {
    if i == |s| - 1 {
      assert s == s[..i] + [s[i]];
      assert s[i] !in s[..i] by {
        forall m | 0 <= m < i ensures s[..i][m] != s[i] {
          assert Cards.Key(s[m]) < Cards.Key(s[i]);
        }
      }
    } else {
      var last := |s| - 1;
      assert s == s[..last] + [s[last]];
      assert Cards.Key(s[i]) < Cards.Key(s[last]);
      CountOfKeyed(s[..last], i);
    }
  }

  class Deck {
    var cards: seq<Card>

    /** `Deck(isEmpty)`: no cards, or the 52 cards built rank by rank and then shuffled. */
    constructor (isEmpty: bool)
      ensures isEmpty ==> cards == []
      ensures !isEmpty ==> multiset(cards) == multiset(FullDeck())
    {
      var deck: seq<Card> := [];
      if !isEmpty {
        var r := 0;
        while r < |Ranks.Values|
          invariant 0 <= r <= |Ranks.Values|
          invariant deck == FullDeck()[..4 * r]
        {
          var s := 0;
          while s < |Suits.Values|
            invariant 0 <= s <= |Suits.Values|
            invariant deck == FullDeck()[..4 * r + s]
          {
            FullDeckAt(r, s);
            deck := deck + [Cards.Card(Ranks.Values[r], Suits.Values[s])];
            s := s + 1;
          }
          r := r + 1;
        }
        assert FullDeck()[..DeckSize] == FullDeck();
      }
      cards := deck;
      new;
      if !isEmpty {
        Shuffle();
      }
    }

    /** `shuffle`: the same cards in some order; which order is left open. */
    method Shuffle()
      modifies this
      ensures multiset(cards) == multiset(old(cards))
    {
      var shuffled: seq<Card> :| multiset(shuffled) == multiset(cards);
      cards := shuffled;
    }

    /** `drawCard`: remove and return the first card; None (null) and no change when the deck is empty. */
    method DrawCard() returns (card: Option<Card>)
      modifies this
      ensures old(cards) == [] ==> card == None && cards == []
      ensures old(cards) != [] ==> card == Some(old(cards)[0]) && cards == old(cards)[1..]
      ensures card.Some? ==> multiset(old(cards)) == multiset(cards) + multiset{card.value}
    {
      card := None;
      if cards != [] {
        card := Some(cards[0]);
        assert cards == [cards[0]] + cards[1..];
        cards := cards[1..];
      }
    }

    /** `addCard`: put `card` at the bottom of the deck. */
    method AddCard(card: Card)
      modifies this
      ensures cards == old(cards) + [card]
    {
      cards := cards + [card];
    }

    /** `isEmpty`. */
    function IsEmpty(): (empty: bool)
      reads this
      ensures empty <==> |cards| == 0
    {
      cards == []
    }
  }
}
