/**
 * Five-card draw: every player holds a five-card poker hand; cards are dealt from the game's
 * deck, or, once that is empty, from the discard deck after shuffling it; players discard
 * cards onto the discard deck and are dealt back up to five; at the end the players are
 * sorted by hand, lowest first. Turns go round the table starting one seat after the dealer.
 */
module FiveCardDraws {
  import opened Options
  import Cards
  import Hands
  import PokerHands
  import Decks
  import Players
  import Games
  import Sorting
  import HandOrders

  type Card = Cards.Card
  type Player = Players.Player

  /** `NUM_CARDS_IN_FULL_HAND`. */
  const NumCardsInFullHand: nat := 5

  // What is on the table, as values.

  /** All cards held in `hands`, counted with repetition. */
  function Held(hands: seq<seq<Card>>): (m: multiset<Card>)
    ensures |m| == Size(hands)
  {
    if hands == [] then multiset{} else multiset(hands[0]) + Held(hands[1..])
  }

  /** The number of cards in `hands`. */
  function Size(hands: seq<seq<Card>>): nat {
    if hands == [] then 0 else |hands[0]| + Size(hands[1..])
  }

  /** Giving hand `k` the cards `cs` takes its old cards out of the held cards and puts `cs` in. */
  lemma {:induction false} HeldUpdate(hands: seq<seq<Card>>, k: int, cs: seq<Card>)
    requires 0 <= k < |hands|
    ensures multiset(hands[k]) <= Held(hands)
    ensures Held(hands[k := cs]) + multiset(hands[k]) == Held(hands) + multiset(cs)
  {
    var updated := hands[k := cs];
    if k == 0 {
      assert updated[1..] == hands[1..];
    } else {
      var rest := hands[1..];
      assert updated[1..] == rest[k - 1 := cs];
      HeldUpdate(rest, k - 1, cs);
      assert Held(updated) == multiset(hands[0]) + Held(rest[k - 1 := cs]);
      assert Held(hands) == multiset(hands[0]) + Held(rest);
      assert rest[k - 1] == hands[k];
      forall c ensures (Held(updated) + multiset(hands[k]))[c] == (Held(hands) + multiset(cs))[c] {
        assert (Held(rest[k - 1 := cs]) + multiset(hands[k]))[c] == (Held(rest) + multiset(cs))[c];
      }
    }
  }

  /** A new player's empty hand adds nothing to the held cards. */
  lemma {:induction false} HeldAppendEmpty(hands: seq<seq<Card>>)
    ensures Held(hands + [[]]) == Held(hands)
  {
    if hands != [] {
      assert (hands + [[]])[1..] == hands[1..] + [[]];
      HeldAppendEmpty(hands[1..]);
    }
  }

  /** Card `c` is counted at most once in `m`. */
  ghost predicate AtMostOnce(m: multiset<Card>, c: Card) {
    m[c] <= 1
  }

  /** No card is counted more than once. */
  ghost predicate NoCardTwice(m: multiset<Card>) {
    forall c :: AtMostOnce(m, c)
  }

  /** Holding no card twice is holding some of the cards of one new deck. */
  lemma NoCardTwiceWithinDeck(m: multiset<Card>)
    ensures NoCardTwice(m) <==> m <= multiset(Decks.FullDeck())
  {
    forall c ensures multiset(Decks.FullDeck())[c] == 1 {
      Decks.FullDeckHoldsEveryCardOnce(c);
    }
    if NoCardTwice(m) {
      forall c ensures m[c] <= multiset(Decks.FullDeck())[c] {
        assert AtMostOnce(m, c);
      }
    }
    if m <= multiset(Decks.FullDeck()) {
      forall c ensures AtMostOnce(m, c) {
        assert m[c] <= multiset(Decks.FullDeck())[c];
      }
    }
  }

  /**
   * The cards on the table come from one deck: the two decks and the hands together hold no
   * card twice, so (by `NoCardTwiceWithinDeck`) no card more often than a new deck does.
   */
  ghost predicate FromOneDeck(deck: seq<Card>, discard: seq<Card>, hands: seq<seq<Card>>) {
    NoCardTwice(multiset(deck) + multiset(discard) + Held(hands))
  }

  /** A list holding no card twice has all its cards different. */
  lemma {:induction false} NoCardTwiceDistinct(cs: seq<Card>)
    requires NoCardTwice(multiset(cs))
    ensures Hands.Distinct(cs)
  {
    forall c ensures multiset(cs)[c] <= 1 {
      assert AtMostOnce(multiset(cs), c);
    }
    Sorting.DistinctOnce(cs);
  }

  /** Every hand dealt from one deck holds each card at most once. */
  lemma FromOneDeckHandDistinct(deck: seq<Card>, discard: seq<Card>, hands: seq<seq<Card>>, k: int)
    requires FromOneDeck(deck, discard, hands) && 0 <= k < |hands|
    ensures Hands.Distinct(hands[k])
  {
    HeldUpdate(hands, k, hands[k]);
    var all := multiset(deck) + multiset(discard) + Held(hands);
    forall c ensures AtMostOnce(multiset(hands[k]), c) {
      assert multiset(hands[k])[c] <= all[c] && AtMostOnce(all, c);
    }
    NoCardTwiceDistinct(hands[k]);
  }

  // Discarding.

  /** The cards of `cs[..n]` whose positions are not in `drop`, in order. */
  function KeptBelow(cs: seq<Card>, drop: set<int>, n: int): (r: seq<Card>)
    requires 0 <= n <= |cs|
    ensures |r| <= n
  {
    if n == 0 then []
    else KeptBelow(cs, drop, n - 1) + (if n - 1 in drop then [] else [cs[n - 1]])
  }

  /** The cards of `cs` whose positions are not in `drop`, in order: a hand after its discards. */
  function Kept(cs: seq<Card>, drop: set<int>): seq<Card> {
    KeptBelow(cs, drop, |cs|)
  }

  /** The cards at `positions`, last position first: the order in which they reach the discard deck. */
  function Picked(cs: seq<Card>, positions: seq<int>): (r: seq<Card>)
    requires forall i :: 0 <= i < |positions| ==> 0 <= positions[i] < |cs|
    ensures |r| == |positions|
  {
    if positions == [] then []
    else [cs[positions[|positions| - 1]]] + Picked(cs, positions[..|positions| - 1])
  }

  /** Below the least dropped position nothing is dropped. */
  lemma {:induction false} KeptBelowUntouched(cs: seq<Card>, drop: set<int>, n: int)
    requires 0 <= n <= |cs| && forall q :: q in drop ==> q >= n
    ensures KeptBelow(cs, drop, n) == cs[..n]
  {
    if n > 0 {
      KeptBelowUntouched(cs, drop, n - 1);
      assert cs[..n] == cs[..n - 1] + [cs[n - 1]];
    }
  }

  /**
   * Dropping one more position `p`, below every position already dropped, removes exactly
   * the card `cs[p]`, which is still at position `p`.
   */
  lemma {:induction false} KeptDropLower(cs: seq<Card>, drop: set<int>, p: int, n: int)
    requires 0 <= p < n <= |cs| && forall q :: q in drop ==> q > p
    ensures |KeptBelow(cs, drop, n)| > p && KeptBelow(cs, drop, n)[p] == cs[p]
    ensures KeptBelow(cs, drop + {p}, n)
      == KeptBelow(cs, drop, n)[..p] + KeptBelow(cs, drop, n)[p + 1..]
  {
    if n == p + 1 {
      KeptBelowUntouched(cs, drop, n);
      KeptBelowUntouched(cs, drop + {p}, p);
      assert KeptBelow(cs, drop + {p}, n) == KeptBelow(cs, drop + {p}, p);
    } else {
      KeptDropLower(cs, drop, p, n - 1);
      var tail := if n - 1 in drop then [] else [cs[n - 1]];
      assert (n - 1 in drop + {p}) == (n - 1 in drop);
      var before := KeptBelow(cs, drop, n - 1);
      assert KeptBelow(cs, drop, n) == before + tail;
      assert (before + tail)[..p] == before[..p];
      assert (before + tail)[p + 1..] == before[p + 1..] + tail;
    }
  }

  /** Taking a lower position first puts its card after the cards of the higher positions. */
  lemma {:induction false} PickedFront(cs: seq<Card>, p: int, positions: seq<int>)
    requires 0 <= p < |cs| && forall i :: 0 <= i < |positions| ==> 0 <= positions[i] < |cs|
    ensures Picked(cs, [p] + positions) == Picked(cs, positions) + [cs[p]]
    decreases |positions|
  {
    if positions != [] {
      var last, front := |positions| - 1, [p] + positions;
      assert front[last + 1] == positions[last] && front[..last + 1] == [p] + positions[..last];
      PickedFront(cs, p, positions[..last]);
      assert Picked(cs, front) == [cs[positions[last]]] + (Picked(cs, positions[..last]) + [cs[p]]);
    }
  }

  /** The positions in `positions`, as a set. */
  function Positions(positions: seq<int>): set<int> {
    set i | 0 <= i < |positions| :: positions[i]
  }

  /** The positions of a list are its first one and those of the rest. */
  lemma PositionsFront(positions: seq<int>)
    requires positions != []
    ensures Positions(positions) == Positions(positions[1..]) + {positions[0]}
  {
    var rest := positions[1..];
    forall q | q in Positions(positions) ensures q in Positions(rest) + {positions[0]} {
      var i :| 0 <= i < |positions| && positions[i] == q;
      if i > 0 { assert rest[i - 1] == q; }
    }
    forall q | q in Positions(rest) ensures q in Positions(positions) {
      var i :| 0 <= i < |rest| && rest[i] == q;
      assert positions[i + 1] == q;
    }
  }

  /** In an ascending list of different positions the first is below all the others. */
  lemma FirstPositionLowest(positions: seq<int>)
    requires positions != [] && Sorting.SortedBy(positions, Position)
    requires forall i, j :: 0 <= i < j < |positions| ==> positions[i] != positions[j]
    ensures forall q :: q in Positions(positions[1..]) ==> q > positions[0]
  {
    forall q | q in Positions(positions[1..]) ensures q > positions[0] {
      var i :| 0 <= i < |positions[1..]| && positions[1..][i] == q;
      assert Position(positions[0]) <= Position(positions[i + 1]);
    }
  }

  /** Discarding keeps every card: the kept cards and the discarded ones are together the old hand. */
  lemma {:induction false} DiscardKeepsCards(cs: seq<Card>, positions: seq<int>)
    requires Sorting.SortedBy(positions, Position)
    requires forall i, j :: 0 <= i < j < |positions| ==> positions[i] != positions[j]
    requires forall i :: 0 <= i < |positions| ==> 0 <= positions[i] < |cs|
    ensures multiset(Kept(cs, Positions(positions))) + multiset(Picked(cs, positions)) == multiset(cs)
    decreases |positions|
  {
    if positions == [] {
      assert Positions(positions) == {};
      KeptBelowUntouched(cs, {}, |cs|);
      assert cs[..|cs|] == cs;
    } else {
      var p, rest := positions[0], positions[1..];
      var kept, picked := Kept(cs, Positions(rest)), Picked(cs, rest);
      assert multiset(kept) + multiset(picked) == multiset(cs) by {
        assert Sorting.SortedBy(rest, Position);
        DiscardKeepsCards(cs, rest);
      }
      assert multiset(Kept(cs, Positions(positions))) + multiset{cs[p]} == multiset(kept) by {
        PositionsFront(positions);
        FirstPositionLowest(positions);
        DropOneMore(cs, Positions(rest), p);
      }
      assert multiset(Picked(cs, positions)) == multiset(picked) + multiset{cs[p]} by {
        assert positions == [p] + rest;
        PickedFront(cs, p, rest);
      }
      MoveAcross(multiset(Kept(cs, Positions(positions))), multiset(Picked(cs, positions)),
        multiset(kept), multiset(picked), multiset{cs[p]}, multiset(cs));
    }
  }

  /** Moving the cards `m` from one part of `all` to the other leaves `all` unchanged. */
  lemma MoveAcross(a: multiset<Card>, b: multiset<Card>, a0: multiset<Card>, b0: multiset<Card>,
                   m: multiset<Card>, all: multiset<Card>)
    requires a + m == a0 && b == b0 + m && a0 + b0 == all
    ensures a + b == all
  {
    forall x ensures (a + b)[x] == all[x] {
      assert (a + m)[x] == a0[x];
    }
  }

  /** Dropping a position below all dropped ones moves one card out of the kept ones. */
  lemma DropOneMore(cs: seq<Card>, drop: set<int>, p: int)
    requires 0 <= p < |cs| && forall q :: q in drop ==> q > p
    ensures multiset(Kept(cs, drop + {p})) + multiset{cs[p]} == multiset(Kept(cs, drop))
  {
    KeptDropLower(cs, drop, p, |cs|);
    RemoveAt(Kept(cs, drop), p);
  }

  /** Taking out the card at position `p` takes one copy of it out of the cards counted. */
  lemma RemoveAt(s: seq<Card>, p: int)
    requires 0 <= p < |s|
    ensures multiset(s[..p] + s[p + 1..]) + multiset{s[p]} == multiset(s)
  {
    assert s == s[..p] + [s[p]] + s[p + 1..];
  }

  /** Sorting different positions in range gives different positions in range, the same ones. */
  lemma SortedDiscards(discards: seq<int>, bound: int)
    requires forall i, j :: 0 <= i < j < |discards| ==> discards[i] != discards[j]
    requires forall i :: 0 <= i < |discards| ==> 0 <= discards[i] < bound
    ensures var sorted := Sorting.SortBy(discards, Position);
      (forall i, j :: 0 <= i < j < |sorted| ==> sorted[i] != sorted[j])
      && (forall i :: 0 <= i < |sorted| ==> 0 <= sorted[i] < bound)
      && Positions(sorted) == Positions(discards)
  {
    var sorted := Sorting.SortBy(discards, Position);
    Sorting.DistinctOnce(discards);
    Sorting.DistinctOnce(sorted);
    forall i | 0 <= i < |sorted| ensures 0 <= sorted[i] < bound {
      assert sorted[i] in multiset(discards);
    }
    forall q ensures q in Positions(sorted) <==> q in Positions(discards) {
      assert q in Positions(sorted) <==> q in multiset(sorted);
      assert q in Positions(discards) <==> q in multiset(discards);
    }
  }

  /**
   * The positions `beforeTurn` discards at, sorted: still different and inside the hand, the
   * same positions, and the hand keeps one card fewer for each.
   */
  lemma DiscardPlan(cs: seq<Card>, discards: seq<int>)
    requires forall i, j :: 0 <= i < j < |discards| ==> discards[i] != discards[j]
    requires forall i :: 0 <= i < |discards| ==> 0 <= discards[i] < |cs|
    ensures var positions := Sorting.SortBy(discards, Position);
      Sorting.SortedBy(positions, Position)
      && (forall i, j :: 0 <= i < j < |positions| ==> positions[i] != positions[j])
      && (forall i :: 0 <= i < |positions| ==> 0 <= positions[i] < |cs|)
      && Positions(positions) == Positions(discards)
      && |Kept(cs, Positions(positions))| == |cs| - |discards|
  {
    var positions := Sorting.SortBy(discards, Position);
    SortedDiscards(discards, |cs|);
    DiscardKeepsCards(cs, positions);
    assert |Kept(cs, Positions(positions))| == |cs| - |positions| by {
      assert |multiset(Kept(cs, Positions(positions)))| + |multiset(Picked(cs, positions))| == |multiset(cs)|;
    }
    assert |positions| == |multiset(positions)| == |discards|;
  }

  /**
   * Taking the next position `p = sorted[n - 1]` down the ascending list `sorted`: `p` is
   * below every position already taken, so the card still at position `p` is `cs[p]`, and
   * taking it out leaves the cards kept when `p` is dropped as well.
   */
  lemma DiscardStep(cs: seq<Card>, sorted: seq<int>, n: int)
    requires Sorting.SortedBy(sorted, Position)
    requires forall i, j :: 0 <= i < j < |sorted| ==> sorted[i] != sorted[j]
    requires forall i :: 0 <= i < |sorted| ==> 0 <= sorted[i] < |cs|
    requires 1 <= n <= |sorted|
    ensures var p, kept := sorted[n - 1], Kept(cs, Positions(sorted[n..]));
      p < |kept| && kept[p] == cs[p]
      && Kept(cs, Positions(sorted[n - 1..])) == kept[..p] + kept[p + 1..]
      && Picked(cs, sorted[n - 1..]) == Picked(cs, sorted[n..]) + [cs[p]]
  {
    var p, rest := sorted[n - 1], sorted[n..];
    assert sorted[n - 1..][1..] == rest;
    assert sorted[n - 1..] == [p] + rest;
    PositionsFront(sorted[n - 1..]);
    forall q | q in Positions(rest) ensures q > p {
      var i :| 0 <= i < |rest| && rest[i] == q;
      assert Position(sorted[n - 1]) <= Position(sorted[n + i]);
    }
    KeptDropLower(cs, Positions(rest), p, |cs|);
    PickedFront(cs, p, rest);
  }

  /**
   * The cards left of `cs` once the positions `sorted[n..]` have been discarded one at a
   * time, highest position first; a position past the end of the hand removes nothing.
   */
  function DiscardedFrom(cs: seq<Card>, sorted: seq<int>, n: int): seq<Card>
    requires 0 <= n <= |sorted|
    decreases |sorted| - n
  {
    if n == |sorted| then cs
    else
      var h, p := DiscardedFrom(cs, sorted, n + 1), sorted[n];
      if 0 <= p < |h| then h[..p] + h[p + 1..] else h
  }

  /** The discard deck `discard` with the cards discarded at `sorted[n..]` added at the bottom, in the order they go there. */
  function DiscardPile(discard: seq<Card>, cs: seq<Card>, sorted: seq<int>, n: int): seq<Card>
    requires 0 <= n <= |sorted|
    decreases |sorted| - n
  {
    if n == |sorted| then discard
    else
      var h, p := DiscardedFrom(cs, sorted, n + 1), sorted[n];
      DiscardPile(discard, cs, sorted, n + 1) + (if 0 <= p < |h| then [h[p]] else [])
  }

  /** After discarding at `sorted[n..]`, highest first, the hand is `hand` and the discard deck is `pile`. */
  ghost predicate DiscardedTo(hand: seq<Card>, pile: seq<Card>, discard: seq<Card>, cs: seq<Card>, sorted: seq<int>, n: int)
    requires 0 <= n <= |sorted|
  {
    hand == DiscardedFrom(cs, sorted, n) && pile == DiscardPile(discard, cs, sorted, n)
  }

  /**
   * Discarding the positions of an ascending list of different positions one at a time,
   * highest first, keeps the cards at the other positions, in order, and puts the cards at
   * those positions on the discard deck, highest position first.
   */
  lemma {:induction false} DiscardingHighestFirst(discard: seq<Card>, cs: seq<Card>, sorted: seq<int>, n: int)
    requires Sorting.SortedBy(sorted, Position)
    requires forall i, j :: 0 <= i < j < |sorted| ==> sorted[i] != sorted[j]
    requires forall i :: 0 <= i < |sorted| ==> 0 <= sorted[i] < |cs|
    requires 0 <= n <= |sorted|
    ensures DiscardedFrom(cs, sorted, n) == Kept(cs, Positions(sorted[n..]))
    ensures DiscardPile(discard, cs, sorted, n) == discard + Picked(cs, sorted[n..])
    decreases |sorted| - n
  {
    if n == |sorted| {
      assert Positions(sorted[n..]) == {};
      KeptBelowUntouched(cs, {}, |cs|);
      assert cs[..|cs|] == cs;
    } else {
      DiscardingHighestFirst(discard, cs, sorted, n + 1);
      DiscardOneMore(discard, cs, sorted, n);
    }
  }

  /** The step of `DiscardingHighestFirst`: what holds after `sorted[n + 1..]` holds after `sorted[n..]`. */
  lemma DiscardOneMore(discard: seq<Card>, cs: seq<Card>, sorted: seq<int>, n: int)
    requires Sorting.SortedBy(sorted, Position)
    requires forall i, j :: 0 <= i < j < |sorted| ==> sorted[i] != sorted[j]
    requires forall i :: 0 <= i < |sorted| ==> 0 <= sorted[i] < |cs|
    requires 0 <= n < |sorted|
    requires DiscardedFrom(cs, sorted, n + 1) == Kept(cs, Positions(sorted[n + 1..]))
    requires DiscardPile(discard, cs, sorted, n + 1) == discard + Picked(cs, sorted[n + 1..])
    ensures DiscardedFrom(cs, sorted, n) == Kept(cs, Positions(sorted[n..]))
    ensures DiscardPile(discard, cs, sorted, n) == discard + Picked(cs, sorted[n..])
  {
    DiscardStep(cs, sorted, n + 1);
    var p, picked := sorted[n], Picked(cs, sorted[n + 1..]);
    assert DiscardPile(discard, cs, sorted, n) == (discard + picked) + [cs[p]];
  }

  /**
   * The next position to discard, `sorted[n]`, still lies inside the hand, so discarding it
   * removes that card from the hand and adds it to the bottom of the discard deck.
   */
  lemma DiscardNext(discard: seq<Card>, cs: seq<Card>, sorted: seq<int>, n: int)
    requires Sorting.SortedBy(sorted, Position)
    requires forall i, j :: 0 <= i < j < |sorted| ==> sorted[i] != sorted[j]
    requires forall i :: 0 <= i < |sorted| ==> 0 <= sorted[i] < |cs|
    requires 0 <= n < |sorted|
    ensures var h, p := DiscardedFrom(cs, sorted, n + 1), sorted[n];
      p < |h| && DiscardedFrom(cs, sorted, n) == h[..p] + h[p + 1..]
      && DiscardPile(discard, cs, sorted, n) == DiscardPile(discard, cs, sorted, n + 1) + [h[p]]
  {
    DiscardingHighestFirst([], cs, sorted, n + 1);
    DiscardStep(cs, sorted, n + 1);
  }

  /** Discard positions sort as the integers they are. */
  function Position(p: int): int {
    p
  }

  // Going round the table.

  /** The seat of the `k`-th player served when `n` players sit round the table and `dealer` deals. */
  function Seat(dealer: int, n: int, k: int): (s: int)
    requires n > 0
    ensures 0 <= s < n
  {
    (dealer + 1 + k) % n
  }

  /** How many players are served before the one in seat `s`: the inverse of `Seat`. */
  function TurnsBefore(dealer: int, n: int, s: int): (k: int)
    requires n > 0
    ensures 0 <= k < n
  {
    (s - dealer - 1) % n
  }

  /** Serving `n` players from one seat after the dealer serves every seat exactly once. */
  lemma SeatsGoRound(dealer: int, n: int, k: int, s: int)
    requires n > 0 && 0 <= k < n && 0 <= s < n
    ensures Seat(dealer, n, k) == s <==> TurnsBefore(dealer, n, s) == k
    ensures Seat(dealer, n, TurnsBefore(dealer, n, s)) == s
  {
    TurnsOfSeat(dealer, n, k);
    SeatOfTurns(dealer, n, s);
  }

  /** The player served `k`-th sits in the seat with `k` players served before it. */
  lemma TurnsOfSeat(dealer: int, n: int, k: int)
    requires n > 0 && 0 <= k < n
    ensures TurnsBefore(dealer, n, Seat(dealer, n, k)) == k
  {
    var a := dealer + 1 + k;
    var q, r := a / n, a % n;
    assert a == q * n + r;
    ModUnique(r - dealer - 1, n, k, -q);
  }

  /** The seat with `k` players served before it is the seat of the player served `k`-th. */
  lemma SeatOfTurns(dealer: int, n: int, s: int)
    requires n > 0 && 0 <= s < n
    ensures Seat(dealer, n, TurnsBefore(dealer, n, s)) == s
  {
    var b := s - dealer - 1;
    var q, t := b / n, b % n;
    assert b == q * n + t;
    ModUnique(dealer + 1 + t, n, s, -q);
  }

  /** The remainder of `x` by `n` is the one `r` in range with `x - r` a multiple of `n`. */
  lemma ModUnique(x: int, n: int, r: int, m: int)
    requires n > 0 && 0 <= r < n && x == r + m * n
    ensures x % n == r
  {
    var q, rr := x / n, x % n;
    assert (q - m) * n == r - rr;
    if q - m >= 1 {
      MulAtLeast(q - m, n);
    } else if q - m <= -1 {
      MulAtLeast(m - q, n);
    }
  }

  /** A positive multiple of `n` is at least `n`. */
  lemma MulAtLeast(a: int, n: int)
    requires a >= 1 && n > 0
    ensures a * n >= n
  {
  }

  /** The next player served sits one seat further round. */
  lemma NextSeat(dealer: int, n: int, k: int)
    requires n > 0
    ensures Seat(dealer, n, k + 1) == (Seat(dealer, n, k) + 1) % n
  {
    var a := dealer + 1 + k;
    var q, r := a / n, a % n;
    assert a == q * n + r;
    NextAround(r, n);
    if r + 1 < n {
      ModUnique(a + 1, n, r + 1, q);
    } else {
      ModUnique(a + 1, n, 0, q + 1);
    }
  }

  /** After a full pass, the next player served sits where the first one did. */
  lemma SeatAfterPass(dealer: int, n: int)
    requires n > 0
    ensures Seat(dealer, n, n) == Seat(dealer, n, 0)
  {
    var a := dealer + 1;
    assert a == (a / n) * n + a % n;
    ModUnique(a + n, n, a % n, a / n + 1);
  }

  // Dealing round the table.

  /** The cards `i` passes round a table of `n` players deal. */
  function PassCards(i: nat, n: nat): nat {
    if i == 0 then 0 else PassCards(i - 1, n) + n
  }

  /** Each pass round the table deals one card per player, so `i` passes deal `i` cards per player. */
  lemma {:induction false} PassesDealPerPlayer(i: nat, n: nat)
    ensures PassCards(i, n) == i * n
  {
    if i > 0 {
      PassesDealPerPlayer(i - 1, n);
    }
  }

  /** The smaller of `a` and `b`. */
  function Min(a: int, b: int): int {
    if a <= b then a else b
  }

  /**
   * `order` lists the seats of a table of `n` in the order players are served when `dealer`
   * deals: from the seat after the dealer, each one seat further round, every seat once.
   */
  ghost predicate TurnOrder(order: seq<int>, dealer: int, n: int)
    requires n > 0
  {
    Around(order, n) && order[0] == (dealer + 1) % n
    && (forall s :: 0 <= s < n ==> order[TurnsBefore(dealer, n, s)] == s)
  }

  /** `order` goes round a table of `n` seats one seat at a time, visiting no seat twice. */
  ghost predicate Around(order: seq<int>, n: int) {
    |order| == n
    && (forall k :: 0 <= k < n ==>
          0 <= order[k] < n && (if k + 1 < n then order[k + 1] else order[0]) == if order[k] + 1 < n then order[k] + 1 else 0)
    && (forall a, b :: 0 <= a < b < n ==> order[a] != order[b])
  }

  /** One seat further round from seat `s`. */
  lemma NextAround(s: int, n: int)
    requires 0 <= s < n
    ensures (s + 1) % n == if s + 1 < n then s + 1 else 0
  {
    if s + 1 == n {
      ModUnique(s + 1, n, 0, 1);
    } else {
      ModUnique(s + 1, n, s + 1, 0);
    }
  }

  /**
   * Round a table in serving `order`, the players served before turn `i` hold full hands
   * and those from turn `j` on hold their cards of `start`.
   */
  ghost predicate Served(table: seq<seq<Card>>, start: seq<seq<Card>>, order: seq<int>, i: int, j: int)
    requires |table| == |start| && Around(order, |table|) && 0 <= i <= |table| && 0 <= j
  {
    (forall k :: 0 <= k < i ==> |table[order[k]]| == NumCardsInFullHand)
    && (forall k :: j <= k < |table| ==> table[order[k]] == start[order[k]])
  }

  /**
   * The turn of the player at seat `order[i]` changes only that hand: the others are still
   * served as before, and when the hand is then full, one more player has been served.
   */
  lemma TurnServes(table: seq<seq<Card>>, table': seq<seq<Card>>, start: seq<seq<Card>>, order: seq<int>, i: int, p: int)
    requires |table| == |start| && Around(order, |table|) && 0 <= i < |table| && order[i] == p
    requires Served(table, start, order, i, i) && SameExcept(table, table', p)
    ensures Served(table', start, order, i, i + 1)
    ensures |table'[p]| == NumCardsInFullHand ==> Served(table', start, order, i + 1, i + 1)
  {
    assert forall k :: 0 <= k < |table| && k != i ==> order[k] != p;
  }

  /**
   * Round a table in serving `order`, the players served before turn `i` hold five cards
   * less the number of positions `discards` lists for them, and the others full hands.
   */
  ghost predicate Prompted(table: seq<seq<Card>>, order: seq<int>, discards: seq<seq<int>>, i: int)
    requires Around(order, |table|) && |discards| == |table|
  {
    forall k :: 0 <= k < |table| ==>
      |table[order[k]]| == if k < i then NumCardsInFullHand - |discards[k]| else NumCardsInFullHand
  }

  /**
   * The discarding of the player at seat `order[i]` changes only that hand: when it drops the
   * cards `discards[i]` lists, one more player has discarded.
   */
  lemma DiscardServes(table: seq<seq<Card>>, table': seq<seq<Card>>, order: seq<int>, discards: seq<seq<int>>, i: int, p: int)
    requires Around(order, |table|) && |discards| == |table| && 0 <= i < |table| && order[i] == p
    requires Prompted(table, order, discards, i) && SameExcept(table, table', p)
    requires |table'[p]| == |table[p]| - |discards[i]|
    ensures Prompted(table', order, discards, i + 1)
  {
    assert forall k :: 0 <= k < |table| && k != i ==> order[k] != p;
  }

  /** In an order going round the table, the seat served after seat `s`, served `k`-th, is one seat further round. */
  lemma NextInOrder(order: seq<int>, n: int, k: int, s: int)
    requires Around(order, n) && 0 <= k < n && order[k] == s
    ensures (if k + 1 < n then order[k + 1] else order[0]) == (s + 1) % n
  {
    NextAround(s, n);
  }

  /** The seats in serving order: `Seat` for each turn. */
  lemma ServingOrder(dealer: int, n: int) returns (order: seq<int>)
    requires n > 0
    ensures TurnOrder(order, dealer, n)
    ensures forall k :: 0 <= k < n ==> order[k] == Seat(dealer, n, k)
  {
    order := seq(n, k requires 0 <= k < n => Seat(dealer, n, k));
    forall k | 0 <= k < n
      ensures (if k + 1 < n then order[k + 1] else order[0]) == if order[k] + 1 < n then order[k] + 1 else 0
    {
      NextSeat(dealer, n, k);
      NextAround(order[k], n);
      if k + 1 == n {
        SeatAfterPass(dealer, n);
      }
    }
    forall a, b | 0 <= a < b < n
      ensures order[a] != order[b]
    {
      SeatsGoRound(dealer, n, a, order[a]);
      SeatsGoRound(dealer, n, b, order[a]);
    }
    forall s | 0 <= s < n
      ensures order[TurnsBefore(dealer, n, s)] == s
    {
      SeatsGoRound(dealer, n, 0, s);
    }
  }

  /**
   * Each hand of `table` is the hand of `start` dealt a card in each of `i` passes round the
   * table and, when among the first `j` seats of `order`, one more; or is full, since a full
   * hand takes no more cards.
   */
  ghost predicate DealtUpTo(start: seq<seq<Card>>, table: seq<seq<Card>>, order: seq<int>, i: int, j: int) {
    |table| == |start| == |order|
    && forall k :: 0 <= k < |order| ==>
         0 <= order[k] < |table| && |table[order[k]]| == Min(NumCardsInFullHand, |start[order[k]]| + i + if k < j then 1 else 0)
  }

  /** Dealing a card to the `j`-th player served in a pass keeps the count of deals. */
  lemma DealtNext(start: seq<seq<Card>>, table: seq<seq<Card>>, table': seq<seq<Card>>, order: seq<int>, i: int, j: int, c: Card)
    requires DealtUpTo(start, table, order, i, j) && 0 <= j < |order|
    requires forall a, b :: 0 <= a < b < |order| ==> order[a] != order[b]
    requires SameExcept(table, table', order[j]) && Dealt(table[order[j]], table'[order[j]], c)
    ensures DealtUpTo(start, table', order, i, j + 1)
  {
    forall k | 0 <= k < |order|
      ensures |table'[order[k]]| == Min(NumCardsInFullHand, |start[order[k]]| + i + if k < j + 1 then 1 else 0)
    {
      if k < j {
        assert order[k] != order[j];
      } else if j < k {
        assert order[j] != order[k];
      }
    }
  }

  /** Five passes fill every hand. */
  lemma DealtAll(start: seq<seq<Card>>, table: seq<seq<Card>>, order: seq<int>, dealer: int)
    requires |order| > 0 && TurnOrder(order, dealer, |order|)
    requires DealtUpTo(start, table, order, NumCardsInFullHand, 0)
    ensures forall s :: 0 <= s < |table| ==> |table[s]| == NumCardsInFullHand
  {
    forall s | 0 <= s < |table|
      ensures |table[s]| == NumCardsInFullHand
    {
      var k := TurnsBefore(dealer, |order|, s);
      assert order[k] == s;
    }
  }

  // The players' hands.

  /** A card moved between the decks and one hand, or put aside, leaves the table dealt from one deck. */
  lemma MoveCards(deck: seq<Card>, discard: seq<Card>, hands: seq<seq<Card>>, k: int,
                  deck': seq<Card>, discard': seq<Card>, cs: seq<Card>)
    requires FromOneDeck(deck, discard, hands) && 0 <= k < |hands|
    requires multiset(deck') + multiset(discard') + multiset(cs)
      <= multiset(deck) + multiset(discard) + multiset(hands[k])
    ensures FromOneDeck(deck', discard', hands[k := cs])
  {
    HeldUpdate(hands, k, cs);
    var before, after := Held(hands), Held(hands[k := cs]);
    var moved := multiset(deck') + multiset(discard') + multiset(cs);
    var source := multiset(deck) + multiset(discard) + multiset(hands[k]);
    var table := multiset(deck) + multiset(discard) + before;
    forall c ensures AtMostOnce(multiset(deck') + multiset(discard') + after, c) {
      assert multiset(hands[k])[c] <= before[c];
      assert (after + multiset(hands[k]))[c] == (before + multiset(cs))[c];
      assert moved[c] <= source[c];
      assert AtMostOnce(table, c);
    }
  }

  /** A card drawn from one of the decks and given to hand `k`, or put aside, leaves the table dealt from one deck. */
  lemma DrawMoves(deck: seq<Card>, discard: seq<Card>, hands: seq<seq<Card>>, k: int,
                  deck': seq<Card>, discard': seq<Card>, c: Card, cs: seq<Card>)
    requires FromOneDeck(deck, discard, hands) && 0 <= k < |hands|
    requires (multiset(deck) == multiset(deck') + multiset{c} && discard' == discard)
      || (deck' == deck && multiset(discard) == multiset(discard') + multiset{c})
    requires cs == hands[k] || multiset(cs) == multiset(hands[k]) + multiset{c}
    ensures FromOneDeck(deck', discard', hands[k := cs])
  {
    var moved := multiset(deck') + multiset(discard') + multiset(cs);
    var source := multiset(deck) + multiset(discard) + multiset(hands[k]);
    forall x ensures moved[x] <= source[x] {
      assert (multiset(deck') + multiset(discard'))[x] + multiset{c}[x] == (multiset(deck) + multiset(discard))[x];
      assert multiset(cs)[x] <= multiset(hands[k])[x] + multiset{c}[x];
    }
    MoveCards(deck, discard, hands, k, deck', discard', cs);
  }

  /**
   * The cards `m` go from the decks into one hand: the decks lose them, the hand's cards
   * `given` are its old cards `taken` and `m`, and the held cards change as the hand does.
   */
  lemma IntoHand(decks: multiset<Card>, decks': multiset<Card>, held: multiset<Card>, held': multiset<Card>,
                 taken: multiset<Card>, given: multiset<Card>, m: multiset<Card>)
    requires held' + taken == held + given
    requires decks == decks' + m && given == taken + m
    ensures decks' + held' == decks + held
  {
    forall x ensures (decks' + held')[x] == (decks + held)[x] {
      assert (held' + taken)[x] == (held + given)[x];
    }
  }

  /**
   * The cards `m` go from one hand onto the decks: the decks gain them, the hand's old cards
   * `taken` are its new cards `given` and `m`, and the held cards change as the hand does.
   */
  lemma OutOfHand(decks: multiset<Card>, decks': multiset<Card>, held: multiset<Card>, held': multiset<Card>,
                  taken: multiset<Card>, given: multiset<Card>, m: multiset<Card>)
    requires held' + taken == held + given
    requires decks' == decks + m && taken == given + m
    ensures decks' + held' == decks + held
  {
    forall x ensures (decks' + held')[x] == (decks + held)[x] {
      assert (held' + taken)[x] == (held + given)[x];
    }
  }

  /**
   * A card `c` that leaves the decks for hand `k` stays on the table when the hand has room
   * for it, and is lost when the hand is already full.
   */
  lemma DealConserves(deck: seq<Card>, discard: seq<Card>, hands: seq<seq<Card>>, k: int,
                      deck': seq<Card>, discard': seq<Card>, c: Card, cs: seq<Card>)
    requires 0 <= k < |hands|
    requires multiset(deck) + multiset(discard) == multiset(deck') + multiset(discard') + multiset{c}
    requires Dealt(hands[k], cs, c)
    ensures var before, after := multiset(deck) + multiset(discard) + Held(hands),
                                 multiset(deck') + multiset(discard') + Held(hands[k := cs]);
      if |hands[k]| < NumCardsInFullHand then after == before else after + multiset{c} == before
  {
    var decks, decks' := multiset(deck) + multiset(discard), multiset(deck') + multiset(discard');
    if |hands[k]| < NumCardsInFullHand {
      HeldUpdate(hands, k, cs);
      IntoHand(decks, decks', Held(hands), Held(hands[k := cs]), multiset(hands[k]), multiset(cs), multiset{c});
    } else {
      assert hands[k := cs] == hands;
      forall x ensures (decks' + Held(hands) + multiset{c})[x] == (decks + Held(hands))[x] {
        assert decks[x] == decks'[x] + multiset{c}[x];
      }
    }
  }

  /**
   * Discarding the cards of hand `k` at `positions` onto the discard deck, which becomes
   * `discard'`, keeps every card on the table.
   */
  lemma DiscardAllConserves(deck: seq<Card>, discard: seq<Card>, hands: seq<seq<Card>>, k: int, positions: seq<int>,
                            discard': seq<Card>, hands': seq<seq<Card>>)
    requires 0 <= k < |hands| && Sorting.SortedBy(positions, Position)
    requires forall i, j :: 0 <= i < j < |positions| ==> positions[i] != positions[j]
    requires forall i :: 0 <= i < |positions| ==> 0 <= positions[i] < |hands[k]|
    requires discard' == discard + Picked(hands[k], positions)
    requires SameExcept(hands, hands', k) && hands'[k] == Kept(hands[k], Positions(positions))
    ensures multiset(deck) + multiset(discard') + Held(hands') == multiset(deck) + multiset(discard) + Held(hands)
  {
    var h := hands[k];
    var kept, picked := Kept(h, Positions(positions)), Picked(h, positions);
    DiscardKeepsCards(h, positions);
    SameExceptUpdate(hands, hands', k);
    HeldUpdate(hands, k, kept);
    var decks := multiset(deck) + multiset(discard);
    assert multiset(deck) + multiset(discard + picked) == decks + multiset(picked);
    OutOfHand(decks, multiset(deck) + multiset(discard + picked), Held(hands), Held(hands[k := kept]),
      multiset(h), multiset(kept), multiset(picked));
  }

  /** A card moved from hand `k` to the bottom of the discard deck leaves the table dealt from one deck. */
  lemma DiscardMoves(deck: seq<Card>, discard: seq<Card>, hands: seq<seq<Card>>, k: int, p: int)
    requires FromOneDeck(deck, discard, hands) && 0 <= k < |hands| && 0 <= p < |hands[k]|
    ensures FromOneDeck(deck, discard + [hands[k][p]], hands[k := hands[k][..p] + hands[k][p + 1..]])
  {
    var h := hands[k];
    var rest := h[..p] + h[p + 1..];
    RemoveAt(h, p);
    var moved, source := multiset(deck) + multiset(discard + [h[p]]) + multiset(rest), multiset(deck) + multiset(discard) + multiset(h);
    forall x ensures moved[x] <= source[x] {
      assert (multiset(rest) + multiset{h[p]})[x] == multiset(h)[x];
    }
    MoveCards(deck, discard, hands, k, deck, discard + [h[p]], rest);
  }

  /** Player `i` of `players` holds hand `i` of `hands`. */
  ghost predicate Seated(players: seq<Player>, hands: seq<Hands.Hand>)
    reads players
  {
    |hands| == |players| && forall i :: 0 <= i < |players| ==> players[i].hand == hands[i]
  }

  /** `hand` is a poker hand in order holding the cards `cs`. */
  ghost predicate Holds(hand: Hands.Hand, cs: seq<Card>)
    reads hand
  {
    hand.capacity == NumCardsInFullHand && hand.Valid() && hand.cards == cs
  }

  /** Hand `i` holds the cards `table[i]`. */
  ghost predicate Holding(hands: seq<Hands.Hand>, table: seq<seq<Card>>)
    reads hands
  {
    |table| == |hands| && forall i :: 0 <= i < |hands| ==> Holds(hands[i], table[i])
  }

  /** No two seats share a hand. */
  predicate Apart(hands: seq<Hands.Hand>) {
    forall i, j :: 0 <= i < j < |hands| ==> hands[i] != hands[j]
  }

  class FiveCardDraw {
    const game: Games.Game
    const discardDeck: Decks.Deck
    const dealerPlayerIndex: int
    /** Each player's hand, seat by seat. */
    ghost var hands: seq<Hands.Hand>
    /** The cards in each player's hand, seat by seat. */
    ghost var table: seq<seq<Card>>
    /** The hand objects given to players: what dealing round the table may change. */
    ghost var handSet: set<Hands.Hand>

    /**
     * The seats are in order: the game's own invariant holds, the two decks are different
     * objects, and every player holds a poker hand of their own whose cards `table` records.
     */
    ghost predicate Seating()
      reads this, game, game.players, hands
    {
      game.Valid()
      && game.deck != discardDeck
      && Seated(game.players, hands)
      && Holding(hands, table)
      && Apart(hands)
      && (forall i :: 0 <= i < |hands| ==> hands[i] in handSet)
    }

    /** The seats are in order, and the decks and hands together hold cards of one deck. */
    ghost predicate Valid()
      reads this, game, game.deck, discardDeck, game.players, hands
    {
      Seating() && FromOneDeck(game.deck.cards, discardDeck.cards, table)
    }

    /** Every card on the table, counted with repetition: the game's deck, the discard deck and the hands. */
    ghost function OnTable(): multiset<Card>
      reads this, game, game.deck, discardDeck
    {
      multiset(game.deck.cards) + multiset(discardDeck.cards) + Held(table)
    }

    /**
     * `FiveCardDraw()`: no players, the game's deck as the game makes it (empty), and a full
     * shuffled discard deck; the dealer sits in seat 0.
     */
    constructor ()
      ensures Valid() && fresh(game) && fresh(game.deck) && fresh(discardDeck)
      ensures game.players == [] && game.deck.cards == [] && dealerPlayerIndex == 0
      ensures multiset(discardDeck.cards) == multiset(Decks.FullDeck())
      ensures OnTable() == multiset(Decks.FullDeck())
    {
      game := new Games.Game();
      dealerPlayerIndex := 0;
      discardDeck := new Decks.Deck(false);
      hands := [];
      handSet := {};
      table := [];
      new;
      assert Held([]) == multiset{};
      assert OnTable() == multiset(discardDeck.cards);
      NoCardTwiceWithinDeck(OnTable());
    }

    /** `addPlayer`: as the game does it, and a player who joins is given an empty poker hand. */
    method AddPlayer(name: string) returns (player: Players.Player?)
      requires Valid()
      modifies this, game
      ensures Valid()
      ensures player == null <==> name in old(game.playerNames)
      ensures player == null ==> game.players == old(game.players)
      ensures player != null ==> (fresh(player) && player.name == name
        && game.players == old(game.players) + [player]
        && fresh(player.hand) && player.hand.capacity == NumCardsInFullHand && player.hand.cards == [])
      ensures OnTable() == old(OnTable())
    {
      player := game.AddPlayer(name);
      if player != null {
        assert Joining(player) by {
          assert forall i :: 0 <= i < |hands| ==> game.players[i] == old(game.players)[i];
        }
        GiveHand(player);
      }
    }

    /**
     * The game's seats with one more player, `player`, at the end, who has no hand yet;
     * everything else is in order.
     */
    ghost predicate Joining(player: Player)
      reads this, game, game.deck, discardDeck, game.players, hands
    {
      game.Valid() && game.deck != discardDeck
      && |game.players| == |hands| + 1 && game.players[|hands|] == player
      && (forall i :: 0 <= i < |hands| ==> game.players[i].hand == hands[i] && game.players[i] != player)
      && Holding(hands, table) && Apart(hands) && (forall i :: 0 <= i < |hands| ==> hands[i] in handSet)
      && FromOneDeck(game.deck.cards, discardDeck.cards, table)
    }

    /** The rest of `addPlayer`: the player who has just joined is given an empty poker hand. */
    method GiveHand(player: Player)
      requires Joining(player)
      modifies this, player
      ensures Valid()
      ensures fresh(player.hand) && player.hand.capacity == NumCardsInFullHand && player.hand.cards == []
      ensures OnTable() == old(OnTable())
    {
      var hand := new Hands.Hand(NumCardsInFullHand);
      player.SetHand(hand);
      hands, table, handSet := hands + [hand], table + [[]], handSet + {hand};
      forall i | 0 <= i < |hands| ensures Holds(hands[i], table[i]) {
        if i < |hands| - 1 {
          assert old(Holds(hands[i], table[i]));
        }
      }
      forall i | 0 <= i < |game.players| ensures game.players[i].hand == hands[i] {
        if i < |hands| - 1 {
          assert old(game.players[i].hand) == hands[i];
        }
      }
      HeldAppendEmpty(old(table));
    }

    /**
     * `dealCard`: the first card of the game's deck goes to the player; when that deck is
     * empty, the discard deck is shuffled and its first card goes instead; when both are
     * empty, nothing happens and the game has ended. A player whose hand is full does not
     * take the card, which is then out of play. `drawn` is the card drawn, if any.
     */
    method DealCard(player: Player, ghost k: int) returns (gameEnded: bool, ghost drawn: Option<Card>)
      requires Valid() && 0 <= k < |game.players| && game.players[k] == player
      modifies this, game.deck, discardDeck, player.hand
      ensures Valid() && hands == old(hands) && handSet == old(handSet)
      ensures gameEnded <==> old(game.deck.cards) == [] && old(discardDeck.cards) == []
      ensures gameEnded <==> drawn == None
      ensures gameEnded ==> game.deck.cards == [] && discardDeck.cards == [] && player.hand.cards == old(player.hand.cards)
      ensures old(game.deck.cards) != [] ==> (drawn == Some(old(game.deck.cards)[0])
        && game.deck.cards == old(game.deck.cards)[1..] && discardDeck.cards == old(discardDeck.cards))
      ensures old(game.deck.cards) == [] && drawn.Some? ==> (game.deck.cards == []
        && multiset(discardDeck.cards) + multiset{drawn.value} == multiset(old(discardDeck.cards)))
      ensures drawn.Some? ==> Dealt(old(player.hand.cards), player.hand.cards, drawn.value)
      ensures drawn.Some? ==> Dealt(old(table)[k], table[k], drawn.value)
      ensures !gameEnded ==> |game.deck.cards| + |discardDeck.cards| + 1 == old(|game.deck.cards| + |discardDeck.cards|)
      ensures SameExcept(old(table), table, k)
      ensures gameEnded || old(|player.hand.cards|) < NumCardsInFullHand ==> OnTable() == old(OnTable())
      ensures drawn.Some? && old(|player.hand.cards|) >= NumCardsInFullHand ==> OnTable() + multiset{drawn.value} == old(OnTable())
    {
      ghost var deck, discard, before := game.deck.cards, discardDeck.cards, table;
      assert OnTable() == multiset(deck) + multiset(discard) + Held(before);
      var card := Draw();
      gameEnded := card.None?;
      drawn := card;
      assert Seating() && table == before;
      if card.Some? {
        Give(player, k, card.value, deck, discard);
      }
    }

    /** `turn`: deal to the player until their hand is full, or stop when the game has ended. */
    method Turn(player: Player) returns (gameEnded: bool)
      requires Valid() && player in game.players
      modifies this, game.deck, discardDeck, player.hand
      ensures Valid() && hands == old(hands) && handSet == old(handSet)
      ensures !gameEnded <==> |player.hand.cards| == NumCardsInFullHand
      ensures gameEnded ==> game.deck.cards == [] && discardDeck.cards == []
      ensures multiset(old(player.hand.cards)) <= multiset(player.hand.cards)
      ensures forall s :: 0 <= s < |game.players| && game.players[s] == player ==> SameExcept(old(table), table, s)
      ensures OnTable() == old(OnTable())
      ensures |game.deck.cards| + |discardDeck.cards| + |player.hand.cards|
        == old(|game.deck.cards| + |discardDeck.cards| + |player.hand.cards|)
      ensures gameEnded <==> old(|game.deck.cards| + |discardDeck.cards|) < NumCardsInFullHand - old(|player.hand.cards|)
    {
      ghost var k :| 0 <= k < |game.players| && game.players[k] == player;
      gameEnded := false;
      while !player.hand.IsFullHand()
        invariant Valid() && hands == old(hands) && handSet == old(handSet) && !gameEnded
        invariant multiset(old(player.hand.cards)) <= multiset(player.hand.cards)
        invariant SameExcept(old(table), table, k)
        invariant OnTable() == old(OnTable())
        invariant |game.deck.cards| + |discardDeck.cards| + |player.hand.cards|
          == old(|game.deck.cards| + |discardDeck.cards| + |player.hand.cards|)
        decreases NumCardsInFullHand - |player.hand.cards|
      {
        ghost var drawn;
        gameEnded, drawn := DealCard(player, k);
        if gameEnded {
          break;
        }
      }
    }

    /**
     * The drawing half of `dealCard`: the first card of the game's deck; when that deck is
     * empty, the first card of the discard deck after shuffling it; None when both are empty.
     */
    method Draw() returns (card: Option<Card>)
      requires game.deck != discardDeck
      modifies game.deck, discardDeck
      ensures card == None <==> old(game.deck.cards) == [] && old(discardDeck.cards) == []
      ensures card == None ==> game.deck.cards == [] && discardDeck.cards == []
      ensures old(game.deck.cards) != [] ==> (card == Some(old(game.deck.cards)[0])
        && game.deck.cards == old(game.deck.cards)[1..] && discardDeck.cards == old(discardDeck.cards)
        && multiset(old(game.deck.cards)) == multiset(game.deck.cards) + multiset{card.value})
      ensures old(game.deck.cards) == [] && card.Some? ==> (game.deck.cards == []
        && multiset(old(discardDeck.cards)) == multiset(discardDeck.cards) + multiset{card.value})
      ensures card.Some? ==> |game.deck.cards| + |discardDeck.cards| + 1 == old(|game.deck.cards| + |discardDeck.cards|)
    {
      card := None;
      if !game.deck.IsEmpty() {
        card := game.deck.DrawCard();
      } else if !discardDeck.IsEmpty() {
        discardDeck.Shuffle();
        card := discardDeck.DrawCard();
      }
    }

    /**
     * `player.getHand().addCard(card)` for the player in seat `k`, where `card` has just been
     * drawn from one of the decks, which held `deck` and `discard` before.
     */
    method Give(player: Player, ghost k: int, card: Card, ghost deck: seq<Card>, ghost discard: seq<Card>)
      requires Seating() && 0 <= k < |game.players| && game.players[k] == player
      requires FromOneDeck(deck, discard, table)
      requires (multiset(deck) == multiset(game.deck.cards) + multiset{card} && discardDeck.cards == discard)
        || (game.deck.cards == deck && multiset(discard) == multiset(discardDeck.cards) + multiset{card})
      modifies this, player.hand
      ensures Valid() && hands == old(hands) && handSet == old(handSet) && table == old(table)[k := player.hand.cards]
      ensures Dealt(old(player.hand.cards), player.hand.cards, card)
      ensures Dealt(old(table)[k], table[k], card) && SameExcept(old(table), table, k)
      ensures var before := multiset(deck) + multiset(discard) + Held(old(table));
        if old(|player.hand.cards|) < NumCardsInFullHand then OnTable() == before else OnTable() + multiset{card} == before
    {
      ghost var rest := multiset(game.deck.cards) + multiset(discardDeck.cards);
      assert multiset(deck) + multiset(discard) == rest + multiset{card};
      var _ := player.hand.AddCard(card);
      table := table[k := player.hand.cards];
      forall i | 0 <= i < |hands| ensures Holds(hands[i], table[i]) {
        if i != k {
          assert old(Holds(hands[i], table[i]));
        }
      }
      forall i | 0 <= i < |game.players| ensures game.players[i].hand == hands[i] {
        assert old(game.players[i].hand) == hands[i];
      }
      assert Seating();
      DrawMoves(deck, discard, old(table), k, game.deck.cards, discardDeck.cards, card, player.hand.cards);
      DealConserves(deck, discard, old(table), k, game.deck.cards, discardDeck.cards, card, player.hand.cards);
    }

    /**
     * One step of `beforeTurn`: the card at `position` of the hand of the player in seat `k`
     * goes to the bottom of the discard deck, then leaves the hand.
     */
    method DiscardAt(player: Player, ghost k: int, position: nat)
      requires Valid() && 0 <= k < |game.players| && game.players[k] == player
      requires position < |player.hand.cards|
      modifies this, discardDeck, player.hand
      ensures Valid() && hands == old(hands) && handSet == old(handSet) && SameExcept(old(table), table, k)
      ensures discardDeck.cards == old(discardDeck.cards) + [old(player.hand.cards)[position]]
      ensures player.hand.cards == old(player.hand.cards)[..position] + old(player.hand.cards)[position + 1..]
    {
      var card := player.hand.GetCard(position);
      discardDeck.AddCard(card.value);
      player.hand.RemoveCard(position);
      table := table[k := player.hand.cards];
      forall i | 0 <= i < |hands| ensures Holds(hands[i], table[i]) {
        if i != k {
          assert old(Holds(hands[i], table[i]));
        }
      }
      forall i | 0 <= i < |game.players| ensures game.players[i].hand == hands[i] {
        assert old(game.players[i].hand) == hands[i];
      }
      assert Seating();
      DiscardMoves(game.deck.cards, old(discardDeck.cards), old(table), k, position);
    }

    /**
     * `beforeTurn`, with the positions the player would enter at the prompt given as
     * `discards`: the positions are sorted and the cards at them go to the discard deck,
     * highest position first, so that the lower positions still hold their cards.
     */
    method BeforeTurn(player: Player, discards: seq<int>)
      requires Valid() && player in game.players
      requires forall i, j :: 0 <= i < j < |discards| ==> discards[i] != discards[j]
      requires forall i :: 0 <= i < |discards| ==> 0 <= discards[i] < |player.hand.cards|
      modifies this, discardDeck, player.hand
      ensures Valid() && hands == old(hands) && handSet == old(handSet)
      ensures forall s :: 0 <= s < |game.players| && game.players[s] == player ==> SameExcept(old(table), table, s)
      ensures player.hand.cards == Kept(old(player.hand.cards), Positions(discards))
      ensures (SortedDiscards(discards, old(|player.hand.cards|)); discardDeck.cards
        == old(discardDeck.cards) + Picked(old(player.hand.cards), Sorting.SortBy(discards, Position)))
      ensures |player.hand.cards| == old(|player.hand.cards|) - |discards|
      ensures OnTable() == old(OnTable())
    {
      ghost var k :| 0 <= k < |game.players| && game.players[k] == player;
      var positions := Sorting.SortBy(discards, Position);
      DiscardPlan(player.hand.cards, discards);
      DiscardSorted(player, k, positions);
    }

    /**
     * The loop of `beforeTurn`: while positions remain, the card at the last one, the
     * highest, goes to the discard deck and the position is taken off the list; the list
     * still to do is always `positions[..remaining]`.
     */
    method DiscardSorted(player: Player, ghost k: int, positions: seq<int>)
      requires Valid() && 0 <= k < |game.players| && game.players[k] == player
      requires Sorting.SortedBy(positions, Position)
      requires forall i, j :: 0 <= i < j < |positions| ==> positions[i] != positions[j]
      requires forall i :: 0 <= i < |positions| ==> 0 <= positions[i] < |player.hand.cards|
      modifies this, discardDeck, player.hand
      ensures Valid() && hands == old(hands) && handSet == old(handSet) && SameExcept(old(table), table, k)
      ensures player.hand.cards == Kept(old(player.hand.cards), Positions(positions))
      ensures discardDeck.cards == old(discardDeck.cards) + Picked(old(player.hand.cards), positions)
      ensures OnTable() == old(OnTable())
    {
      ghost var cs, discard, before := player.hand.cards, discardDeck.cards, table;
      var remaining := |positions|;
      while remaining > 0
        invariant Discarding(player, k, positions, remaining, cs, discard, old(table), old(hands), old(handSet))
      {
        remaining := DiscardLast(player, k, positions, remaining, cs, discard, old(table), old(hands), old(handSet));
      }
      assert DiscardedFrom(cs, positions, 0) == Kept(cs, Positions(positions))
        && DiscardPile(discard, cs, positions, 0) == discard + Picked(cs, positions) by {
        assert positions[0..] == positions;
        DiscardingHighestFirst(discard, cs, positions, 0);
      }
      assert OnTable() == old(OnTable()) by {
        assert old(Holds(hands[k], table[k]));
        DiscardAllConserves(game.deck.cards, discard, before, k, positions, discardDeck.cards, table);
      }
    }

    /**
     * The state of the loop of `beforeTurn` with `positions[..remaining]` still to do: the
     * seats are in order, only hand `k` has changed since `start`, and the hand and the
     * discard deck are what discarding the rest of the positions made of `cs` and `discard`.
     */
    ghost predicate Discarding(player: Player, k: int, positions: seq<int>, remaining: int, cs: seq<Card>, discard: seq<Card>,
                               start: seq<seq<Card>>, hs: seq<Hands.Hand>, hset: set<Hands.Hand>)
      reads this, game, game.deck, discardDeck, game.players, hands, player, player.hand
    {
      Valid() && 0 <= k < |game.players| && game.players[k] == player
      && Sorting.SortedBy(positions, Position)
      && (forall i, j :: 0 <= i < j < |positions| ==> positions[i] != positions[j])
      && (forall i :: 0 <= i < |positions| ==> 0 <= positions[i] < |cs|)
      && 0 <= remaining <= |positions|
      && hands == hs && handSet == hset && SameExcept(start, table, k)
      && DiscardedTo(player.hand.cards, discardDeck.cards, discard, cs, positions, remaining)
    }

    /**
     * The body of the loop of `beforeTurn`: with `positions[..remaining]` still to do, the
     * card at the last of them goes to the discard deck.
     */
    method DiscardLast(player: Player, ghost k: int, positions: seq<int>, remaining: int, ghost cs: seq<Card>, ghost discard: seq<Card>,
                       ghost start: seq<seq<Card>>, ghost hs: seq<Hands.Hand>, ghost hset: set<Hands.Hand>)
        returns (left: int)
      requires remaining > 0 && Discarding(player, k, positions, remaining, cs, discard, start, hs, hset)
      modifies this, discardDeck, player.hand
      ensures left == remaining - 1 && Discarding(player, k, positions, left, cs, discard, start, hs, hset)
    {
      var currentPosition := positions[remaining - 1];
      ghost var before := table;
      DiscardNext(discard, cs, positions, remaining - 1);
      DiscardAt(player, k, currentPosition);
      left := remaining - 1;
      assert SameExcept(start, before, k) && SameExcept(before, table, k);
    }

    /**
     * `dealCards`: five passes round the table from the seat after the dealer, a card to each
     * player in turn. When the cards run out the pass stops, but the passes left still try to
     * deal, to the same seat, and find no cards either; so the game ends exactly when the
     * decks held fewer cards than five per player.
     */
    method DealCards() returns (gameEnded: bool)
      requires Valid() && |game.players| > 0
      modifies this, game.deck, discardDeck, handSet
      ensures Valid() && hands == old(hands) && handSet == old(handSet)
      ensures gameEnded <==> old(|game.deck.cards| + |discardDeck.cards|) < NumCardsInFullHand * |game.players|
      ensures gameEnded ==> game.deck.cards == [] && discardDeck.cards == []
      ensures !gameEnded ==>
        |game.deck.cards| + |discardDeck.cards| == old(|game.deck.cards| + |discardDeck.cards|) - NumCardsInFullHand * |game.players|
      ensures !gameEnded ==> forall s :: 0 <= s < |table| ==> |table[s]| == NumCardsInFullHand
      ensures AllEmpty(old(table)) ==> OnTable() == old(OnTable())
    {
      ghost var start, cards, onTable := table, |game.deck.cards| + |discardDeck.cards|, OnTable();
      ghost var served := 0;
      ghost var order := ServingOrder(dealerPlayerIndex, |game.players|);
      StartDealing(order);
      var playerNum;
      gameEnded, playerNum, served := DealPasses(start, order, cards, onTable);
      EndDealing(start, order, playerNum, gameEnded, served, cards, onTable);
    }

    /** The five passes of `dealCards`, each starting where the one before stopped. */
    method DealPasses(ghost start: seq<seq<Card>>, ghost order: seq<int>, ghost cards: int, ghost onTable: multiset<Card>)
        returns (gameEnded: bool, playerNum: int, ghost served: int)
      requires |game.players| > 0 && Dealing(start, order, 0, (dealerPlayerIndex + 1) % |game.players|, false, 0, cards, onTable)
      modifies this, game.deck, discardDeck, handSet
      ensures hands == old(hands) && handSet == old(handSet) && game.players == old(game.players)
      ensures Dealing(start, order, NumCardsInFullHand, playerNum, gameEnded, served, cards, onTable)
    {
      gameEnded, served := false, 0;
      var numPlayers := |game.players|;
      playerNum := (dealerPlayerIndex + 1) % numPlayers;
      var i := 0;
      while i < NumCardsInFullHand
        invariant numPlayers == |game.players| && hands == old(hands) && handSet == old(handSet)
        invariant Dealing(start, order, i, playerNum, gameEnded, served, cards, onTable)
      {
        gameEnded, playerNum, served := DealPass(start, order, i, playerNum, gameEnded, served, cards, onTable);
        i := i + 1;
      }
    }

    /** Before the first pass of `dealCards` no card is dealt, and the seat after the dealer is served first. */
    lemma StartDealing(order: seq<int>)
      requires Valid() && |game.players| > 0 && TurnOrder(order, dealerPlayerIndex, |game.players|)
      ensures Dealing(table, order, 0, (dealerPlayerIndex + 1) % |game.players|, false, 0,
                      |game.deck.cards| + |discardDeck.cards|, OnTable())
    {
      forall k | 0 <= k < |order| ensures |table[order[k]]| == Min(NumCardsInFullHand, |table[order[k]]| + 0) {
        assert Holds(hands[order[k]], table[order[k]]);
      }
    }

    /**
     * After the five passes of `dealCards` the game has ended exactly when the decks held
     * fewer than five cards per player; otherwise every hand is full.
     */
    lemma EndDealing(start: seq<seq<Card>>, order: seq<int>, playerNum: int, gameEnded: bool, served: int,
                     cards: int, onTable: multiset<Card>)
      requires Dealing(start, order, NumCardsInFullHand, playerNum, gameEnded, served, cards, onTable)
      requires TurnOrder(order, dealerPlayerIndex, |game.players|)
      ensures gameEnded <==> cards < NumCardsInFullHand * |game.players|
      ensures !gameEnded ==> |game.deck.cards| + |discardDeck.cards| == cards - NumCardsInFullHand * |game.players|
      ensures !gameEnded ==> forall s :: 0 <= s < |table| ==> |table[s]| == NumCardsInFullHand
    {
      PassesDealPerPlayer(NumCardsInFullHand, |game.players|);
      if !gameEnded {
        DealtAll(start, table, order, dealerPlayerIndex);
      }
    }

    /**
     * The state of `dealCards` before its pass `i`: the player to serve next, the `served`
     * cards taken from the decks, which held `cards` before the deal, and, when the hands
     * started empty, the cards on the table, `onTable` before the deal. Until the cards run
     * out every pass serves every player.
     */
    ghost predicate Dealing(start: seq<seq<Card>>, order: seq<int>, i: int, playerNum: int,
                            gameEnded: bool, served: int, cards: int, onTable: multiset<Card>)
      reads this, game, game.deck, discardDeck, game.players, hands
    {
      Valid() && Around(order, |game.players|) && 0 <= i <= NumCardsInFullHand && 0 <= playerNum < |game.players|
      && |game.deck.cards| + |discardDeck.cards| + served == cards
      && (gameEnded ==> game.deck.cards == [] && discardDeck.cards == [] && served < PassCards(i, |game.players|))
      && (!gameEnded ==>
            served == PassCards(i, |game.players|) && playerNum == order[0] && DealtUpTo(start, table, order, i, 0))
      && (AllEmpty(start) ==> OnTable() == onTable)
    }

    /**
     * One pass of `dealCards`, from seat `first` on round the table: a card to each player
     * in turn, until the cards run out. A pass that starts with the cards run out (`ended`)
     * deals nothing.
     */
    method DealPass(ghost start: seq<seq<Card>>, ghost order: seq<int>, ghost i: int, first: int, ended: bool,
                    ghost served: int, ghost cards: int, ghost onTable: multiset<Card>)
        returns (gameEnded: bool, playerNum: int, ghost servedNext: int)
      requires Dealing(start, order, i, first, ended, served, cards, onTable) && i < NumCardsInFullHand
      modifies this, game.deck, discardDeck, handSet
      ensures hands == old(hands) && handSet == old(handSet) && game.players == old(game.players)
      ensures Dealing(start, order, i + 1, playerNum, gameEnded, servedNext, cards, onTable)
    {
      gameEnded, playerNum := ended, first;
      ghost var dealt := 0;
      var numPlayers := |game.players|;
      ghost var passCards := |game.deck.cards| + |discardDeck.cards|;
      var j := 0;
      while j < numPlayers
        invariant numPlayers == |game.players| && hands == old(hands) && handSet == old(handSet) && (ended ==> gameEnded)
        invariant game.players == old(game.players)
        invariant Passing(start, order, i, j, playerNum, gameEnded, dealt, passCards, onTable)
      {
        gameEnded := DealInPass(start, order, i, j, playerNum, gameEnded, dealt, passCards, onTable);
        if gameEnded {
          break;
        }
        dealt := dealt + 1;
        playerNum := (playerNum + 1) % numPlayers;
        j := j + 1;
      }
      assert !gameEnded ==> DealtUpTo(start, table, order, i + 1, 0);
      servedNext := served + dealt;
    }

    /**
     * The state of a pass of `dealCards` round the table before its `j`-th deal: the player
     * to serve, the `dealt` cards taken from the decks, which held `cards` at the start of the
     * pass, and, when the hands started empty, the cards on the table, `onTable` at the start.
     * A pass that found both decks empty deals no more.
     */
    ghost predicate Passing(start: seq<seq<Card>>, order: seq<int>, i: int, j: int, playerNum: int,
                            gameEnded: bool, dealt: int, cards: int, onTable: multiset<Card>)
      reads this, game, game.deck, discardDeck, game.players, hands
    {
      Valid() && Around(order, |game.players|) && 0 <= i < NumCardsInFullHand
      && 0 <= j <= |game.players| && 0 <= playerNum < |game.players|
      && |game.deck.cards| + |discardDeck.cards| + dealt == cards
      && (gameEnded ==> dealt == j < |game.players| && game.deck.cards == [] && discardDeck.cards == [])
      && (!gameEnded ==>
            dealt == j && playerNum == (if j < |game.players| then order[j] else order[0]) && DealtUpTo(start, table, order, i, j))
      && (AllEmpty(start) ==> OnTable() == onTable)
    }

    /**
     * One deal of the inner loop of `dealCards`: the player at seat `playerNum`, the `j`-th
     * served in pass `i`, gets a card unless both decks are empty.
     */
    method DealInPass(ghost start: seq<seq<Card>>, ghost order: seq<int>, ghost i: int, ghost j: int, playerNum: int,
                      ghost ended: bool, ghost dealt: int, ghost cards: int, ghost onTable: multiset<Card>)
        returns (gameEnded: bool)
      requires Passing(start, order, i, j, playerNum, ended, dealt, cards, onTable) && j < |game.players|
      modifies this, game.deck, discardDeck, handSet
      ensures hands == old(hands) && handSet == old(handSet) && game.players == old(game.players)
      ensures ended ==> gameEnded
      ensures gameEnded ==> Passing(start, order, i, j, playerNum, true, dealt, cards, onTable)
      ensures !gameEnded ==>
        Passing(start, order, i, j + 1, (playerNum + 1) % |game.players|, false, dealt + 1, cards, onTable)
    {
      ghost var before := table;
      if !ended {
        NextInOrder(order, |game.players|, j, playerNum);
      }
      assert !ended && AllEmpty(start) ==> |game.players[playerNum].hand.cards| < NumCardsInFullHand by {
        if !ended && AllEmpty(start) {
          assert |table[order[j]]| == Min(NumCardsInFullHand, |start[order[j]]| + i);
        }
      }
      ghost var drawn;
      gameEnded, drawn := DealCard(game.players[playerNum], playerNum);
      if !gameEnded {
        DealtNext(start, before, table, order, i, j, drawn.value);
      }
    }

    /**
     * `round`: a turn for each player in serving order, from the seat after the dealer, each
     * dealt up to a full hand; the round stops at the first turn that finds both decks empty.
     * So the game ends exactly when the table held fewer cards than five per player, and the
     * `served` players before the stopping turn hold full hands while those after it keep
     * their cards.
     */
    method Round() returns (gameEnded: bool, ghost served: int)
      requires Valid() && |game.players| > 0
      modifies this, game.deck, discardDeck, handSet
      ensures Valid() && hands == old(hands) && handSet == old(handSet) && OnTable() == old(OnTable())
      ensures gameEnded <==> old(|game.deck.cards| + |discardDeck.cards| + Size(table)) < NumCardsInFullHand * |game.players|
      ensures gameEnded ==> game.deck.cards == [] && discardDeck.cards == []
      ensures !gameEnded ==> forall s :: 0 <= s < |table| ==> |table[s]| == NumCardsInFullHand
      ensures 0 <= served <= |game.players| && (!gameEnded <==> served == |game.players|)
      ensures forall k :: 0 <= k < served ==> |table[Seat(dealerPlayerIndex, |game.players|, k)]| == NumCardsInFullHand
      ensures forall k :: served < k < |game.players| ==>
        table[Seat(dealerPlayerIndex, |game.players|, k)] == old(table)[Seat(dealerPlayerIndex, |game.players|, k)]
    {
      ghost var start, onTable := table, OnTable();
      ghost var order := ServingOrder(dealerPlayerIndex, |game.players|);
      gameEnded := false;
      var numPlayers := |game.players|;
      var playerNum := (dealerPlayerIndex + 1) % numPlayers;
      var i := 0;
      while i < numPlayers
        invariant numPlayers == |game.players| && hands == old(hands) && handSet == old(handSet)
        invariant Turning(start, order, i, playerNum, onTable)
      {
        gameEnded := TakeTurn(start, order, i, playerNum, onTable);
        if gameEnded {
          break;
        }
        playerNum := (playerNum + 1) % numPlayers;
        i := i + 1;
      }
      served := i;
      EndRound(start, order, served, playerNum, gameEnded, onTable);
    }

    /**
     * The state of `round` before its turn `i`: the players served so far hold full hands,
     * the others hold their cards of `start`, the cards on the table are still `onTable`,
     * and the player in seat `playerNum` is served next.
     */
    ghost predicate Turning(start: seq<seq<Card>>, order: seq<int>, i: int, playerNum: int, onTable: multiset<Card>)
      reads this, game, game.deck, discardDeck, game.players, hands
    {
      Valid() && Around(order, |game.players|) && |start| == |game.players|
      && 0 <= i <= |game.players| && 0 <= playerNum < |game.players|
      && (i < |game.players| ==> playerNum == order[i]) && OnTable() == onTable
      && Served(table, start, order, i, i)
    }

    /**
     * The state of `round` once turn `i` found both decks empty: the players served before
     * hold full hands, those after it their cards of `start`, and the table, which still holds
     * `onTable`, holds fewer cards than five per player.
     */
    ghost predicate Stopped(start: seq<seq<Card>>, order: seq<int>, i: int, onTable: multiset<Card>)
      reads this, game, game.deck, discardDeck, game.players, hands
    {
      Valid() && Around(order, |game.players|) && |start| == |game.players|
      && 0 <= i < |game.players| && OnTable() == onTable
      && game.deck.cards == [] && discardDeck.cards == [] && |onTable| < NumCardsInFullHand * |game.players|
      && Served(table, start, order, i, i + 1)
    }

    /** One turn of `round`: the player in seat `playerNum`, served `i`-th, is dealt up to a full hand. */
    method TakeTurn(ghost start: seq<seq<Card>>, ghost order: seq<int>, ghost i: int, playerNum: int,
                    ghost onTable: multiset<Card>) returns (gameEnded: bool)
      requires Turning(start, order, i, playerNum, onTable) && i < |game.players|
      modifies this, game.deck, discardDeck, handSet
      ensures hands == old(hands) && handSet == old(handSet) && game.players == old(game.players)
      ensures gameEnded ==> Stopped(start, order, i, onTable)
      ensures !gameEnded ==> Turning(start, order, i + 1, (playerNum + 1) % |game.players|, onTable)
    {
      NextInOrder(order, |game.players|, i, playerNum);
      ghost var before := table;
      gameEnded := Turn(game.players[playerNum]);
      TurnServes(before, table, start, order, i, playerNum);
      if gameEnded {
        forall s | 0 <= s < |table| ensures |table[s]| <= NumCardsInFullHand {
          assert Holds(hands[s], table[s]);
        }
        SizeBound(table, playerNum);
      }
    }

    /**
     * After the turns of `round`: the game has ended exactly when the table held fewer cards
     * than five per player, and otherwise every hand is full.
     */
    lemma EndRound(start: seq<seq<Card>>, order: seq<int>, served: int, playerNum: int, gameEnded: bool, onTable: multiset<Card>)
      requires |game.players| > 0 && |start| == |game.players| && TurnOrder(order, dealerPlayerIndex, |game.players|)
      requires forall k :: 0 <= k < |game.players| ==> order[k] == Seat(dealerPlayerIndex, |game.players|, k)
      requires gameEnded ==> Stopped(start, order, served, onTable)
      requires !gameEnded ==> Turning(start, order, served, playerNum, onTable) && served == |game.players|
      ensures gameEnded <==> |onTable| < NumCardsInFullHand * |game.players|
      ensures !gameEnded ==> forall s :: 0 <= s < |table| ==> |table[s]| == NumCardsInFullHand
      ensures forall k :: 0 <= k < served ==> |table[Seat(dealerPlayerIndex, |game.players|, k)]| == NumCardsInFullHand
      ensures forall k :: served < k < |game.players| ==>
        table[Seat(dealerPlayerIndex, |game.players|, k)] == start[Seat(dealerPlayerIndex, |game.players|, k)]
    {
      if !gameEnded {
        forall s | 0 <= s < |table| ensures |table[s]| == NumCardsInFullHand {
          assert order[TurnsBefore(dealerPlayerIndex, |game.players|, s)] == s;
        }
        SizeBound(table, 0);
      }
    }

    /**
     * `beforeRound`, with the positions each player would enter at the prompt given as
     * `discards`, the `k`-th list for the `k`-th player served: the cards are dealt and,
     * unless the game has ended, each player in serving order from the seat after the dealer
     * discards the cards at their positions.
     */
    method BeforeRound(discards: seq<seq<int>>) returns (gameEnded: bool)
      requires Valid() && |game.players| > 0
      requires |discards| == |game.players| && forall k :: 0 <= k < |discards| ==> Choice(discards[k])
      modifies this, game.deck, discardDeck, handSet
      ensures Valid() && hands == old(hands) && handSet == old(handSet)
      ensures gameEnded <==> old(|game.deck.cards| + |discardDeck.cards|) < NumCardsInFullHand * |game.players|
      ensures gameEnded ==> game.deck.cards == [] && discardDeck.cards == []
      ensures !gameEnded ==> forall k :: 0 <= k < |game.players| ==>
        |table[Seat(dealerPlayerIndex, |game.players|, k)]| == NumCardsInFullHand - |discards[k]|
      ensures AllEmpty(old(table)) ==> OnTable() == old(OnTable())
    {
      gameEnded := DealCards();
      if !gameEnded {
        ghost var order := ServingOrder(dealerPlayerIndex, |game.players|);
        ghost var onTable := OnTable();
        var numPlayers := |game.players|;
        var playerNum := (dealerPlayerIndex + 1) % numPlayers;
        var i := 0;
        while i < numPlayers
          invariant numPlayers == |game.players| && hands == old(hands) && handSet == old(handSet)
          invariant Prompting(order, i, playerNum, discards, onTable)
        {
          PromptTurn(order, i, playerNum, discards, onTable);
          playerNum := (playerNum + 1) % numPlayers;
          i := i + 1;
        }
      }
    }

    /**
     * The state of the discarding in `beforeRound` before turn `i`: the players served so far
     * have discarded the positions `discards` lists for them, the others hold full hands, the
     * cards on the table are still `onTable`, and the player in seat `playerNum` is next.
     */
    ghost predicate Prompting(order: seq<int>, i: int, playerNum: int, discards: seq<seq<int>>, onTable: multiset<Card>)
      reads this, game, game.deck, discardDeck, game.players, hands
    {
      Valid() && Around(order, |game.players|) && |discards| == |game.players|
      && 0 <= i <= |game.players| && 0 <= playerNum < |game.players|
      && (i < |game.players| ==> playerNum == order[i]) && OnTable() == onTable
      && Prompted(table, order, discards, i)
    }

    /** One turn of the discarding in `beforeRound`: the player in seat `playerNum`, served `i`-th, discards. */
    method PromptTurn(ghost order: seq<int>, i: int, playerNum: int, discards: seq<seq<int>>, ghost onTable: multiset<Card>)
      requires Prompting(order, i, playerNum, discards, onTable) && i < |game.players| && Choice(discards[i])
      modifies this, discardDeck, handSet
      ensures hands == old(hands) && handSet == old(handSet) && game.players == old(game.players)
      ensures Prompting(order, i + 1, (playerNum + 1) % |game.players|, discards, onTable)
    {
      NextInOrder(order, |game.players|, i, playerNum);
      ghost var before := table;
      assert Holds(hands[playerNum], table[playerNum]);
      BeforeTurn(game.players[playerNum], discards[i]);
      assert Holds(hands[playerNum], table[playerNum]);
      DiscardServes(before, table, order, discards, i, playerNum);
    }

    /**
     * `scoreRound`: a copy of the players sorted by `Collections.sort`, lowest hand first, with
     * a comparator that is `compareTo` on the players' poker hands. The sort is stable and
     * demands a consistent comparator (`ConsistentOn`); the result lists every player once,
     * ascending by hand, players whose hands compare equal in seating order. `seats` gives the
     * seat of each player in the result.
     */
    method ScoreRound() returns (sortedPlayers: seq<Player>, ghost seats: seq<int>)
      requires Valid() && ConsistentOn(table)
      ensures Arrangement(seats, |game.players|) && |sortedPlayers| == |game.players|
      ensures forall k :: 0 <= k < |seats| ==> sortedPlayers[k] == game.players[seats[k]]
      ensures Comparable(table) && Ranked(table, seats)
    {
      var players := game.players;
      var n := |players|;
      assert forall s :: 0 <= s < n ==> players[s].hand == hands[s] && Holds(hands[s], table[s]);
      var cards := seq(n, s requires 0 <= s < n && players[s].hand != null reads players, set p | p in players :: p.hand =>
        players[s].hand.cards);
      assert cards == table;
      var order := SortSeats(Order(cards), n);
      SortSeatsRanked(Order(cards), n);
      sortedPlayers := seq(n, k requires 0 <= k < n => players[order[k]]);
      seats := order;
      SeatsComparable();
    }

    /** `afterRound`, as every game has it: the result of `scoreRound`. */
    method AfterRound() returns (sortedPlayers: seq<Player>, ghost seats: seq<int>)
      requires Valid() && ConsistentOn(table)
      ensures Arrangement(seats, |game.players|) && |sortedPlayers| == |game.players|
      ensures forall k :: 0 <= k < |seats| ==> sortedPlayers[k] == game.players[seats[k]]
      ensures Comparable(table) && Ranked(table, seats)
    {
      sortedPlayers, seats := ScoreRound();
    }

    /** Hands dealt from one deck can always be compared: none of the pair look-ups comes back empty. */
    lemma SeatsComparable()
      requires Valid()
      ensures Comparable(table)
    {
      forall s | 0 <= s < |table| ensures PokerHands.DealtHand(table[s]) {
        assert Holds(hands[s], table[s]);
        FromOneDeckHandDistinct(game.deck.cards, discardDeck.cards, table, s);
      }
      forall s, t | 0 <= s < |table| && 0 <= t < |table| ensures PokerHands.ComparisonDefined(table[s], table[t]) {
        PokerHands.DealtHandsComparable(table[s], table[t]);
      }
    }

    /**
     * Once every player holds a full hand, as `round` leaves them unless the game ended,
     * `scoreRound` has the consistent comparator it needs.
     */
    lemma FullSeatsConsistent()
      requires Valid() && forall s :: 0 <= s < |table| ==> |table[s]| == NumCardsInFullHand
      ensures ConsistentOn(table)
    {
      forall s | 0 <= s < |table| ensures Hands.Sorted(table[s]) {
        assert Holds(hands[s], table[s]);
      }
      FullTableConsistent(game.deck.cards, discardDeck.cards, table);
    }
  }

  /** No hand holds a card: the table before the deal. */
  ghost predicate AllEmpty(table: seq<seq<Card>>) {
    forall s :: 0 <= s < |table| ==> table[s] == []
  }

  /** Only hand `k` differs between `table` and `table'`. */
  ghost predicate SameExcept(table: seq<seq<Card>>, table': seq<seq<Card>>, k: int) {
    |table'| == |table| && forall i :: 0 <= i < |table| && i != k ==> table'[i] == table[i]
  }

  /** A table that differs from `table` only in hand `k` is `table` with hand `k` replaced. */
  lemma SameExceptUpdate(table: seq<seq<Card>>, table': seq<seq<Card>>, k: int)
    requires SameExcept(table, table', k) && 0 <= k < |table|
    ensures table' == table[k := table'[k]]
  {
  }

  /** A hand with room takes `c`; a full hand stays as it was. */
  predicate Dealt(before: seq<Card>, after: seq<Card>, c: Card) {
    if |before| < NumCardsInFullHand then
      multiset(after) == multiset(before) + multiset{c} && |after| == |before| + 1
    else
      after == before
  }

  /**
   * Hands of at most five cards hold at most five cards per hand between them; fewer when
   * hand `p` holds fewer than five, and exactly five per hand when every hand is full.
   */
  lemma {:induction false} SizeBound(table: seq<seq<Card>>, p: int)
    requires forall s :: 0 <= s < |table| ==> |table[s]| <= NumCardsInFullHand
    ensures Size(table) <= NumCardsInFullHand * |table|
    ensures 0 <= p < |table| && |table[p]| < NumCardsInFullHand ==> Size(table) < NumCardsInFullHand * |table|
    ensures (forall s :: 0 <= s < |table| ==> |table[s]| == NumCardsInFullHand) ==> Size(table) == NumCardsInFullHand * |table|
  {
    if table != [] {
      assert forall s :: 0 <= s < |table| - 1 ==> table[1..][s] == table[s + 1];
      SizeBound(table[1..], p - 1);
    }
  }

  /** Discard positions as the prompt accepts them: different positions of a full hand. */
  predicate Choice(positions: seq<int>) {
    (forall a, b :: 0 <= a < b < |positions| ==> positions[a] != positions[b])
    && forall a :: 0 <= a < |positions| ==> 0 <= positions[a] < NumCardsInFullHand
  }

  // Scoring.

  /** The sign of `x`: -1, 0 or 1. */
  function Sign(x: int): int {
    if x < 0 then -1 else if x > 0 then 1 else 0
  }

  /**
   * The order the comparator of `scoreRound` puts on seats: `compareTo` on their hands, and 0
   * where the hands cannot be compared, which never happens to hands dealt from one deck.
   */
  function Order(table: seq<seq<Card>>): (int, int) -> int {
    (s, t) => Versus(table, s, t)
  }

  /** What the comparator of `scoreRound` answers for the players in seats `s` and `t`. */
  function Versus(table: seq<seq<Card>>, s: int, t: int): int {
    if 0 <= s < |table| && 0 <= t < |table| && PokerHands.ComparisonDefined(table[s], table[t])
    then PokerHands.CompareTo(table[s], table[t]) else 0
  }

  /**
   * `cmp` meets, on different seats below `n`, the contract `Collections.sort` demands of a
   * comparator: antisymmetric in sign and transitive. (Its third rule, that seats comparing
   * equal compare alike with every other, follows from these two.)
   */
  ghost predicate ConsistentBy(cmp: (int, int) -> int, n: int) {
    (forall s, t :: 0 <= s < n && 0 <= t < n && s != t ==> Antisymmetric(cmp, s, t))
    && forall s, t, u :: 0 <= s < n && 0 <= t < n && 0 <= u < n && s != t && t != u && s != u ==>
         Transitive(cmp, s, t, u)
  }

  /** Comparing `s` with `t` gives the opposite sign of comparing `t` with `s`. */
  ghost predicate Antisymmetric(cmp: (int, int) -> int, s: int, t: int) {
    Sign(cmp(s, t)) == -Sign(cmp(t, s))
  }

  /** `s` at most `t` and `t` at most `u` put `s` at most `u`. */
  ghost predicate Transitive(cmp: (int, int) -> int, s: int, t: int, u: int) {
    cmp(s, t) <= 0 && cmp(t, u) <= 0 ==> cmp(s, u) <= 0
  }

  /** `compareTo` is a consistent comparator on the hands of different seats of `table`. */
  ghost predicate ConsistentOn(table: seq<seq<Card>>) {
    ConsistentBy(Order(table), |table|)
  }

  /** Every two hands of `table` can be compared. */
  ghost predicate Comparable(table: seq<seq<Card>>) {
    forall s, t {:trigger PokerHands.ComparisonDefined(table[s], table[t])} :: 0 <= s < |table| && 0 <= t < |table| ==> PokerHands.ComparisonDefined(table[s], table[t])
  }

  /** The hands of two different seats hold, between them, no more cards than the whole table. */
  lemma HeldTwo(hands: seq<seq<Card>>, s: int, t: int)
    requires 0 <= s < |hands| && 0 <= t < |hands| && s != t
    ensures multiset(hands[s]) + multiset(hands[t]) <= Held(hands)
  {
    var rest := hands[s := []];
    HeldUpdate(hands, s, []);
    HeldUpdate(rest, t, rest[t]);
    assert Held(rest) + multiset(hands[s]) == Held(hands);
    forall c ensures (multiset(hands[s]) + multiset(hands[t]))[c] <= Held(hands)[c] {
      assert multiset(rest[t])[c] <= Held(rest)[c];
    }
  }

  /** Two seats of a table dealt from one deck share no card. */
  lemma SeatsDisjoint(deck: seq<Card>, discard: seq<Card>, hands: seq<seq<Card>>, s: int, t: int)
    requires FromOneDeck(deck, discard, hands) && 0 <= s < |hands| && 0 <= t < |hands| && s != t
    ensures HandOrders.Disjoint(hands[s], hands[t])
  {
    HeldTwo(hands, s, t);
    var all := multiset(deck) + multiset(discard) + Held(hands);
    forall c | c in hands[s] ensures c !in hands[t] {
      assert AtMostOnce(all, c);
      assert (multiset(hands[s]) + multiset(hands[t]))[c] <= all[c];
      assert multiset(hands[t])[c] == 0;
    }
  }

  /**
   * When every seat holds a full hand in order, dealt from one deck (as after a round that
   * did not end the game), `compareTo` is a consistent comparator on the seats.
   */
  lemma FullTableConsistent(deck: seq<Card>, discard: seq<Card>, table: seq<seq<Card>>)
    requires FromOneDeck(deck, discard, table)
    requires forall s :: 0 <= s < |table| ==> |table[s]| == NumCardsInFullHand && Hands.Sorted(table[s])
    ensures ConsistentOn(table) && Comparable(table)
  {
    forall s | 0 <= s < |table| ensures HandOrders.Dealt(table[s]) {
      FromOneDeckHandDistinct(deck, discard, table, s);
    }
    forall s, t | 0 <= s < |table| && 0 <= t < |table| && s != t ensures HandOrders.Disjoint(table[s], table[t]) {
      SeatsDisjoint(deck, discard, table, s, t);
    }
    DealtTableAntisymmetric(table);
    DealtTableTransitive(table);
  }

  /** Seats holding dealt hands can all be compared, and compare the opposite way round each way. */
  lemma DealtTableAntisymmetric(table: seq<seq<Card>>)
    requires forall s :: 0 <= s < |table| ==> HandOrders.Dealt(table[s])
    ensures Comparable(table)
    ensures forall s, t :: 0 <= s < |table| && 0 <= t < |table| && s != t ==> Antisymmetric(Order(table), s, t)
  {
    forall s, t | 0 <= s < |table| && 0 <= t < |table| ensures PokerHands.ComparisonDefined(table[s], table[t]) {
      HandOrders.CompareAntisymmetric(table[s], table[t]);
    }
    forall s, t | 0 <= s < |table| && 0 <= t < |table| && s != t ensures Antisymmetric(Order(table), s, t) {
      DealtAntisymmetric(table, s, t);
    }
  }

  /** Seats holding dealt hands without a card in common compare transitively. */
  lemma DealtTableTransitive(table: seq<seq<Card>>)
    requires forall s :: 0 <= s < |table| ==> HandOrders.Dealt(table[s])
    requires forall s, t :: 0 <= s < |table| && 0 <= t < |table| && s != t ==> HandOrders.Disjoint(table[s], table[t])
    ensures forall s, t, u :: 0 <= s < |table| && 0 <= t < |table| && 0 <= u < |table| && s != t && t != u && s != u ==>
      Transitive(Order(table), s, t, u)
  {
    forall s, t, u | 0 <= s < |table| && 0 <= t < |table| && 0 <= u < |table| && s != t && t != u && s != u
      ensures Transitive(Order(table), s, t, u)
    {
      DealtTransitive(table, s, t, u);
    }
  }

  /** Two seats holding dealt hands compare the opposite way round each way. */
  lemma DealtAntisymmetric(table: seq<seq<Card>>, s: int, t: int)
    requires 0 <= s < |table| && 0 <= t < |table| && HandOrders.Dealt(table[s]) && HandOrders.Dealt(table[t])
    ensures PokerHands.ComparisonDefined(table[s], table[t]) && Antisymmetric(Order(table), s, t)
  {
    HandOrders.CompareAntisymmetric(table[s], table[t]);
  }

  /** Three seats holding dealt hands without a card in common compare transitively. */
  lemma DealtTransitive(table: seq<seq<Card>>, s: int, t: int, u: int)
    requires 0 <= s < |table| && 0 <= t < |table| && 0 <= u < |table|
    requires HandOrders.Dealt(table[s]) && HandOrders.Dealt(table[t]) && HandOrders.Dealt(table[u])
    requires HandOrders.Disjoint(table[s], table[t]) && HandOrders.Disjoint(table[t], table[u])
    requires HandOrders.Disjoint(table[s], table[u])
    ensures Transitive(Order(table), s, t, u)
  {
    HandOrders.CompareAntisymmetric(table[s], table[t]);
    HandOrders.CompareAntisymmetric(table[t], table[u]);
    if Order(table)(s, t) <= 0 && Order(table)(t, u) <= 0 {
      HandOrders.CompareTransitive(table[s], table[t], table[u]);
    }
  }

  /**
   * Two seats holding short hands break the comparator: `compareTo` puts each below the
   * other, since a hand that is not full compares below everything.
   */
  lemma ShortHandsInconsistent(table: seq<seq<Card>>, s: int, t: int)
    requires 0 <= s < |table| && 0 <= t < |table| && s != t
    requires |table[s]| != NumCardsInFullHand && |table[t]| != NumCardsInFullHand
    ensures Order(table)(s, t) == -1 && Order(table)(t, s) == -1
    ensures !ConsistentOn(table)
  {
    assert !Antisymmetric(Order(table), s, t);
  }

  /** `seats` lists the seats `0` to `n - 1`, each once. */
  ghost predicate Arrangement(seats: seq<int>, n: int) {
    |seats| == n && (forall k :: 0 <= k < n ==> 0 <= seats[k] < n)
    && (forall k, l :: 0 <= k < l < n ==> seats[k] != seats[l])
    && forall s :: 0 <= s < n ==> s in seats
  }

  /** The seats `seats` ascend in the order `cmp`, and of two seats comparing equal the lower comes first. */
  ghost predicate RankedBy(cmp: (int, int) -> int, seats: seq<int>) {
    forall k, l :: 0 <= k < l < |seats| ==>
      cmp(seats[k], seats[l]) <= 0 && (cmp(seats[k], seats[l]) == 0 ==> seats[k] < seats[l])
  }

  /**
   * The hands of the seats `seats` ascend in the order `compareTo` defines, and of two seats
   * whose hands compare equal the lower seat comes first.
   */
  ghost predicate Ranked(table: seq<seq<Card>>, seats: seq<int>) {
    RankedBy(Order(table), seats)
  }

  /** Seats ranked by their hands: each hand compares at most equal to every hand listed after it. */
  lemma RankedAscends(table: seq<seq<Card>>, seats: seq<int>)
    requires Comparable(table) && (forall k :: 0 <= k < |seats| ==> 0 <= seats[k] < |table|) && Ranked(table, seats)
    ensures forall k, l :: 0 <= k < l < |seats| ==>
      PokerHands.CompareTo(table[seats[k]], table[seats[l]]) <= 0
      && (PokerHands.CompareTo(table[seats[k]], table[seats[l]]) == 0 ==> seats[k] < seats[l])
  {
    forall k, l | 0 <= k < l < |seats|
      ensures PokerHands.CompareTo(table[seats[k]], table[seats[l]]) == Order(table)(seats[k], seats[l])
    {
    }
  }

  /**
   * `Collections.sort` on the seats `0` to `n - 1` under the comparator `cmp`, as a stable
   * insertion sort: each seat in turn goes in after the last seat sorted so far that it
   * does not compare below.
   */
  function SortSeats(cmp: (int, int) -> int, n: nat): seq<int> {
    InsertFrom(cmp, [], 0, n)
  }

  /** The seats `i` to `n - 1` inserted, in turn, into the sorted seats `sorted`. */
  function InsertFrom(cmp: (int, int) -> int, sorted: seq<int>, i: nat, n: nat): seq<int>
    decreases n - i
  {
    if i >= n then sorted else InsertFrom(cmp, InsertSeat(cmp, sorted, i), i + 1, n)
  }

  /** Seat `x` inserted into the sorted `seats` where `PlaceAmong` puts it. */
  function InsertSeat(cmp: (int, int) -> int, seats: seq<int>, x: int): seq<int> {
    var k := PlaceAmong(cmp, seats, x);
    seats[..k] + [x] + seats[k..]
  }

  /**
   * Where seat `x` goes among `seats`: comparing from the last one down, just after the
   * first one it does not compare below, or at the front when it compares below them all.
   */
  function PlaceAmong(cmp: (int, int) -> int, seats: seq<int>, x: int): (k: int)
    ensures 0 <= k <= |seats|
    ensures forall m :: k <= m < |seats| ==> cmp(x, seats[m]) < 0
    ensures k > 0 ==> cmp(x, seats[k - 1]) >= 0
    decreases |seats|
  {
    if seats == [] || cmp(x, seats[|seats| - 1]) >= 0 then |seats|
    else PlaceAmong(cmp, seats[..|seats| - 1], x)
  }

  /**
   * Under a consistent comparator the sort lists every seat once, in ascending order, seats
   * that compare equal in seating order.
   */
  lemma SortSeatsRanked(cmp: (int, int) -> int, n: nat)
    requires ConsistentBy(cmp, n)
    ensures Arrangement(SortSeats(cmp, n), n) && RankedBy(cmp, SortSeats(cmp, n))
  {
    InsertFromRanked(cmp, [], 0, n);
  }

  /** Inserting the seats `i` to `n - 1` into an arrangement of the seats below `i` arranges the seats below `n`. */
  lemma {:induction false} InsertFromArranged(cmp: (int, int) -> int, sorted: seq<int>, i: nat, n: nat)
    requires i <= n && Arrangement(sorted, i)
    ensures Arrangement(InsertFrom(cmp, sorted, i, n), n)
    decreases n - i
  {
    if i < n {
      var k, next := PlaceAmong(cmp, sorted, i), InsertSeat(cmp, sorted, i);
      InsertArranged(sorted, i, k, next);
      InsertFromArranged(cmp, next, i + 1, n);
    }
  }

  /** Under a consistent comparator, inserting the seats `i` to `n - 1` into ranked seats keeps them ranked. */
  lemma {:induction false} InsertFromRanked(cmp: (int, int) -> int, sorted: seq<int>, i: nat, n: nat)
    requires i <= n && Arrangement(sorted, i) && RankedBy(cmp, sorted) && ConsistentBy(cmp, n)
    ensures Arrangement(InsertFrom(cmp, sorted, i, n), n) && RankedBy(cmp, InsertFrom(cmp, sorted, i, n))
    decreases n - i
  {
    if i < n {
      var k, next := PlaceAmong(cmp, sorted, i), InsertSeat(cmp, sorted, i);
      InsertArranged(sorted, i, k, next);
      InsertRanked(cmp, n, sorted, i, k, next);
      InsertFromRanked(cmp, next, i + 1, n);
      assert InsertFrom(cmp, sorted, i, n) == InsertFrom(cmp, next, i + 1, n);
    } else {
      InsertFromArranged(cmp, sorted, i, n);
    }
  }

  /**
   * Seat `x`, above every seat in `seats`, inserted at position `k`, after a seat it does not
   * compare below and before the seats it compares below, keeps the seats ranked.
   */
  lemma InsertRanked(cmp: (int, int) -> int, n: int, seats: seq<int>, x: int, k: int, r: seq<int>)
    requires ConsistentBy(cmp, n) && x < n && Arrangement(seats, x)
    requires RankedBy(cmp, seats) && 0 <= k <= |seats|
    requires k > 0 ==> cmp(x, seats[k - 1]) >= 0
    requires forall m :: k <= m < |seats| ==> cmp(x, seats[m]) < 0
    requires r == seats[..k] + [x] + seats[k..]
    ensures RankedBy(cmp, r)
  {
    forall a | 0 <= a < k ensures cmp(seats[a], x) <= 0 && seats[a] < x {
      RankedBelowInserted(cmp, n, seats, x, k, a);
    }
    forall a, b | 0 <= a < b < |r|
      ensures cmp(r[a], r[b]) <= 0 && (cmp(r[a], r[b]) == 0 ==> r[a] < r[b])
    {
      InsertedPair(cmp, seats, x, k, r, a, b);
    }
  }

  /** Two positions of the ranked `seats` with `x` inserted at `k`, as `InsertRanked` needs them. */
  lemma InsertedPair(cmp: (int, int) -> int, seats: seq<int>, x: int, k: int, r: seq<int>, a: int, b: int)
    requires RankedBy(cmp, seats) && 0 <= k <= |seats| && r == seats[..k] + [x] + seats[k..]
    requires forall m :: 0 <= m < k ==> cmp(seats[m], x) <= 0 && seats[m] < x
    requires forall m :: k <= m < |seats| ==> cmp(x, seats[m]) < 0
    requires 0 <= a < b < |r|
    ensures cmp(r[a], r[b]) <= 0 && (cmp(r[a], r[b]) == 0 ==> r[a] < r[b])
  {
    if a != k && b != k {
      var a', b' := if a < k then a else a - 1, if b < k then b else b - 1;
      assert r[a] == seats[a'] && r[b] == seats[b'] && a' < b';
    } else if a == k {
      assert r[a] == x && r[b] == seats[b - 1];
    } else {
      assert r[a] == seats[a] && r[b] == x;
    }
  }

  /** A ranked seat before the place `k` where seat `x` goes compares at most equal to `x`, and is lower. */
  lemma RankedBelowInserted(cmp: (int, int) -> int, n: int, seats: seq<int>, x: int, k: int, a: int)
    requires ConsistentBy(cmp, n) && x < n && Arrangement(seats, x)
    requires RankedBy(cmp, seats) && 0 <= a < k <= |seats|
    requires cmp(x, seats[k - 1]) >= 0
    ensures cmp(seats[a], x) <= 0 && seats[a] < x
  {
    assert Antisymmetric(cmp, x, seats[k - 1]);
    if a < k - 1 {
      assert cmp(seats[a], seats[k - 1]) <= 0 && Transitive(cmp, seats[a], seats[k - 1], x);
    }
  }

  /** Seat `i` inserted anywhere into an arrangement of the seats below it makes an arrangement of the seats up to it. */
  lemma InsertArranged(seats: seq<int>, i: int, k: int, r: seq<int>)
    requires Arrangement(seats, i) && 0 <= k <= i && r == seats[..k] + [i] + seats[k..]
    ensures Arrangement(r, i + 1)
  {
    forall m | 0 <= m < i + 1 ensures 0 <= r[m] <= i && (r[m] == i <==> m == k) {
      if m < k {
        assert r[m] == seats[m];
      } else if m > k {
        assert r[m] == seats[m - 1];
      }
    }
    forall s | 0 <= s < i + 1 ensures s in r {
      if s < i {
        assert s in seats;
        var m :| 0 <= m < i && seats[m] == s;
        if m < k {
          assert r[m] == s;
        } else {
          assert r[m + 1] == s;
        }
      }
    }
  }

  /** Of a ranked arrangement of every seat, the seat listed last holds a hand no other hand compares above: the winner's. */
  lemma LastWins(table: seq<seq<Card>>, seats: seq<int>)
    requires Comparable(table) && Arrangement(seats, |table|) && Ranked(table, seats) && |table| > 0
    ensures forall s :: 0 <= s < |table| && s != seats[|table| - 1] ==> PokerHands.CompareTo(table[s], table[seats[|table| - 1]]) <= 0
  {
    var last := seats[|table| - 1];
    LastRanked(Order(table), seats, |table|);
    forall s | 0 <= s < |table| && s != last
      ensures PokerHands.CompareTo(table[s], table[last]) <= 0
    {
      assert s in seats;
      var m :| 0 <= m < |table| && seats[m] == s;
      assert Order(table)(seats[m], last) <= 0;
    }
  }

  /** Of seats ranked by `cmp`, every seat listed compares at most equal to the seat listed last. */
  lemma LastRanked(cmp: (int, int) -> int, seats: seq<int>, n: int)
    requires |seats| == n && RankedBy(cmp, seats) && n > 0
    ensures forall m :: 0 <= m < n ==> cmp(seats[m], seats[n - 1]) <= 0 || m == n - 1
  {
  }
}
