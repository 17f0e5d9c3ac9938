# Five-card draw, modelled in Dafny

This project models the card-game library of a small Java program for five-card draw poker.

**Cards.** Each card has a rank and a suit.
- Ranks run Two to Ace. Each has a value (2 to 14) and a label ("2" … "10", "J", "Q", "K", "A").
- Suits are Diamonds, Clubs, Hearts and Spades, in that order, each with a one-letter initial.
- Cards are ordered by rank and then by suit.
- A card is written as its rank label followed by its suit initial, for example "KH" or "10D". `getInstance` parses that form back.

**Decks, hands and players.**
- A deck is a list of cards. It can be shuffled, drawn from at the top and added to at the bottom.
- A hand holds up to a fixed number of cards and sorts itself once it is full.
- A poker hand classifies its five cards into one of nine categories, from no rank up to a straight flush. It compares with another hand by category first, then by the category's tie-break.
- A game keeps its players, the set of their names, and its own deck.

**The game.** The five-card-draw game adds three things: a discard deck, a dealer seat, and the rules of a round.
- Deal five cards to each player, starting one seat after the dealer. When the game's deck is empty, the discard deck is shuffled and drawn from instead.
- Let each player discard.
- Deal every hand back up to five.
- Score by sorting the players from the lowest hand to the highest.

**How the model is built.** Objects whose fields the program updates are Dafny classes:
- `Deck`, `Hand`, `Player`, `Game` and `FiveCardDraw`;
- their list fields are `seq` fields that the methods reassign.

Loops in the Java are `while` loops, each proved against a specification function:
- the hand scans;
- the single-card tie-break;
- dealing, turns and discarding.

Values are datatypes with functions and lemmas:
- `Rank`, `Suit`, `Card`, `PokerRank`;
- hand categories and comparison.

`null` results become `Option`.

**Behaviour modelled as the code has it:**
- `getInstance` reads only the first two characters of a string of four or more.
- The single-card tie-break, after skipping a pair, re-reads the other hand's card from this hand (`PokerHand.java:140`). It also indexes the other hand by this hand's position (`PokerHand.java:121`). As a result, some one-pair and two-pair hands tie although their kickers differ. On full hands dealt from one deck the order is still a consistent comparator: antisymmetric and transitive (`HandOrders`).
- Any hand that is not full compares below every hand, even below another hand that is not full.
- The wheel (A-2-3-4-5) ties with the Six-high straight, because only the middle card is compared.
- Dealing goes on after both decks run out. A card dealt to a full hand is lost.
- The game's own deck starts empty and the discard deck starts full, so every card is first drawn from the discard deck, after a shuffle.

## Model

| member | source | states |
|---|---|---|
| Ranks.Next | src/main/cardgame/common/Rank.java:51-57 | the next rank has value one higher, and the rank after Ace is Two |
| Ranks.CompareTo | src/main/cardgame/common/Rank.java:10-22 | negative, zero or positive exactly as the first rank's value is below, equal to or above the second's |
| Ranks.FromValue | src/main/cardgame/common/Rank.java:64-72 | a rank exactly for a non-null value in 2..14, and it is the rank with that value |
| Ranks.FromString | src/main/cardgame/common/Rank.java:79-87 | a rank exactly when the upper-cased string is some rank's label, and then that rank |
| Ranks.ValueMapHoldsEveryRank | src/main/cardgame/common/Rank.java:35-40 | the value table maps each rank's value to that rank and holds nothing else |
| Ranks.NameMapHoldsEveryRank | src/main/cardgame/common/Rank.java:35-40 | the label table maps each upper-cased label to its rank and holds nothing else |
| Ranks.FromValueRoundTrip | src/main/cardgame/common/Rank.java:64-72 | looking up a rank's value gives the rank back |
| Ranks.FromStringRoundTrip | src/main/cardgame/common/Rank.java:79-92 | parsing what `toString` prints gives the rank back |
| Ranks.FromStringIgnoresCase | src/main/cardgame/common/Rank.java:82-83 | the lookup gives the same answer for a string and its upper-cased form |
| Ranks.ValueBounds | src/main/cardgame/common/Rank.java:26-27 | MIN_VALUE and MAX_VALUE bound every rank's value and are Two's and Ace's |
| Ranks.ValueIsOrdinalPlusTwo | src/main/cardgame/common/Rank.java:10-22 | declaration order is value order: value = ordinal + 2 |
| Ranks.LabelLength | src/main/cardgame/common/Rank.java:10-22 | only Ten has a two-character label, which is what `getInstance` relies on |
| Suits.CompareTo | src/main/cardgame/common/Suit.java:11-14 | zero exactly for the same suit |
| Suits.FromString | src/main/cardgame/common/Suit.java:35-43 | a suit exactly when the upper-cased string is some suit's initial, and then that suit |
| Suits.InitialMapHoldsEverySuit | src/main/cardgame/common/Suit.java:20-24 | the table maps each upper-cased initial to its suit and holds nothing else |
| Suits.FromStringRoundTrip | src/main/cardgame/common/Suit.java:35-48 | parsing what `toString` prints gives the suit back |
| Suits.FromStringLowerCase | src/main/cardgame/common/Suit.java:38-39 | lower-case initials are accepted |
| Suits.FromStringRejects | src/main/cardgame/common/Suit.java:35-43 | null and anything that is not an initial in either case give null |
| Suits.SuitOrder | src/main/cardgame/common/Suit.java:11-14 | four suits, Diamonds < Clubs < Hearts < Spades, with distinct initials |
| Cards.CompareTo | src/main/cardgame/common/Card.java:52-59 | zero exactly for equal cards, otherwise the sign of the difference of positions in rank-then-suit order |
| Cards.Equals | src/main/cardgame/common/Card.java:62-73 | true exactly for a non-null card with the same rank and suit |
| Cards.GetInstance | src/main/cardgame/common/Card.java:27-50 | null for fewer than two characters; a card only when both fields parse, and then the card they name |
| Cards.ToString | src/main/cardgame/common/Card.java:84-87 | three characters for a Ten and two for every other rank, ending in a suit initial, so `getInstance` can tell the fields apart |
| Cards.ToStringRoundTrip | src/main/cardgame/common/Card.java:27-87 | parsing what `toString` prints gives every card back |
| Cards.GetInstanceIgnoresTail | src/main/cardgame/common/Card.java:38-42 | for four or more characters only the first two are read |
| Cards.GetInstanceExamples | src/main/cardgame/common/Card.java:33-47 | "KHXY" is the King of Hearts, "KHX" is rejected, "10d" is the Ten of Diamonds, "1" is rejected |
| Cards.ExtraCharactersIgnored | src/main/cardgame/common/Card.java:38-42 | "KHXY" parses as the King of Hearts |
| Cards.ThreeCharacterRankRefused | src/main/cardgame/common/Card.java:34-37 | "KHX" is read as rank "KH", which is rejected |
| Cards.LowerCaseSuitAccepted | src/main/cardgame/common/Card.java:34-37 | "10d" parses as the Ten of Diamonds |
| Cards.RankDecides | src/main/cardgame/common/Card.java:52-59 | different ranks compare as the ranks do; equal ranks compare by suit, and different suits never compare equal |
| Cards.CompareAgreesWithEquals | src/main/cardgame/common/Card.java:52-73 | `compareTo` is zero exactly when `equals` holds |
| Cards.CompareIsTotalOrder | src/main/cardgame/common/Card.java:52-59 | antisymmetric, transitive and total |
| Cards.CompareExamples | src/test/cardgame/common/TestCard.java:12-58 | the fixed results the card tests assert |
| PokerRanks.CompareTo | src/main/cardgame/poker/PokerRank.java:6-15 | zero exactly for the same category |
| PokerRanks.StrictlyOrdered | src/main/cardgame/poker/PokerRank.java:6-15 | nine categories, each strictly above the ones declared before it |
| PokerRanks.NoRankIsLeast | src/main/cardgame/poker/PokerRank.java:7 | no rank is at most every category |
| PokerRanks.StraightFlushIsGreatest | src/main/cardgame/poker/PokerRank.java:15 | straight flush is at least every category |
| PokerRanks.FlushPlacement | src/main/cardgame/poker/PokerRank.java:10-13 | a flush beats a straight and three of a kind, and loses to a full house |
| PokerRanks.CompareAntisymmetric | src/main/cardgame/poker/PokerRank.java:6-15 | swapping the arguments negates the result |
| Text.UpperChar | src/main/cardgame/common/Rank.java:82 | each lower-case ASCII letter becomes its capital, 32 code points lower ('a' to 'A' and so on); everything else is kept |
| Text.ToUpperIdempotent | src/main/cardgame/common/Rank.java:37 | an upper-cased string is upper case, and upper-casing it again changes nothing |
| Sorting.SortBy | src/main/cardgame/poker/FiveCardDraw.java:149 | `Collections.sort` on the discard positions: a permutation, ascending |
| Sorting.SortedPermutationUnique | src/main/cardgame/poker/FiveCardDraw.java:149 | with distinct keys, two ascending permutations of the same elements are equal, so the sort's outcome is determined |
| Decks.FullDeck | src/main/cardgame/common/Deck.java:23-28 | 52 cards: every rank in every suit |
| Decks.FullDeckInCardOrder | src/main/cardgame/common/Deck.java:23-28 | the unshuffled deck is strictly ascending in card order and contains every card |
| Decks.FullDeckHoldsEveryCardOnce | src/main/cardgame/common/Deck.java:20-31 | a new full deck holds each card exactly once |
| Decks.Deck.constructor | src/main/cardgame/common/Deck.java:20-31 | empty, or a shuffled permutation of the 52 cards |
| Decks.Deck.Shuffle | src/main/cardgame/common/Deck.java:36-38 | the same cards, in some order |
| Decks.Deck.DrawCard | src/main/cardgame/common/Deck.java:44-51 | the top card is removed and returned; null and no change on an empty deck |
| Decks.Deck.AddCard | src/main/cardgame/common/Deck.java:57-59 | the card goes to the bottom |
| Decks.Deck.IsEmpty | src/main/cardgame/common/Deck.java:65-67 | true exactly when the deck has no cards |
| Players.Player.constructor | src/main/cardgame/common/Player.java:15-17 | the name is kept and there is no hand yet |
| Players.Player.SetHand | src/main/cardgame/common/Player.java:27-29 | the hand is replaced |
| Games.Game.constructor | src/main/cardgame/common/Game.java:14-18 | no players, no names, and an empty deck |
| Games.Game.AddPlayer | src/main/cardgame/common/Game.java:25-33 | null and no change when the name is taken; otherwise a new player with that name is appended and the name is recorded. Names stay unique. |
| Hands.SortCards | src/main/cardgame/common/Hand.java:84-86 | `Collections.sort` on cards: the same cards, ascending |
| Hands.SortedUnique | src/main/cardgame/common/Hand.java:84-86 | two ascending arrangements of the same cards are identical |
| Hands.SortCardsUnique | src/main/cardgame/common/Hand.java:84-86 | every ascending arrangement of the cards is the one the sort returns |
| Hands.RemovePreservesSorted | src/main/cardgame/common/Hand.java:67-71 | removing a card keeps a sorted hand sorted |
| Hands.SortedRanks | src/main/cardgame/common/Hand.java:84-86 | a hand sorted in card order is sorted by rank |
| Hands.FindPairDescending | src/main/cardgame/common/Hand.java:180-190 | a found card is in the hand |
| Hands.FindPairDescendingFinds | src/main/cardgame/common/Hand.java:180-190 | null exactly when no position from `start` down to 1 matches the rank below it (so always for a `start` of 0 or less); otherwise a card at such a position |
| Hands.FindPairFindsHighest | src/main/cardgame/common/Hand.java:180-190 | the search returns the card at the highest matching position |
| Hands.IndexOf | src/main/cardgame/poker/PokerHand.java:68-69 | `List.indexOf`: -1 exactly when the card is absent, otherwise its first position |
| Hands.IndexOfDistinct | src/main/cardgame/poker/PokerHand.java:68-69 | in a hand without repeats, a card's first position is its only position |
| Hands.Hand.constructor | src/main/cardgame/poker/PokerHand.java:18-20 | an empty hand of the given full size |
| Hands.Hand.IsFullHand | src/main/cardgame/common/Hand.java:77-79 | true exactly when the hand holds its full size |
| Hands.Hand.GetCard | src/main/cardgame/common/Hand.java:46-52 | the card at the position, or null past the end |
| Hands.Hand.Sort | src/main/cardgame/common/Hand.java:84-86 | the hand becomes the sorted permutation of its cards |
| Hands.Hand.AddCard | src/main/cardgame/common/Hand.java:28-39 | added exactly when not full, and then appended. A hand that becomes full is sorted and keeps the same cards. A full hand is unchanged. |
| Hands.Hand.RemoveCard | src/main/cardgame/common/Hand.java:67-71 | the card at the position is deleted and the rest keep their order; nothing happens past the end |
| Hands.Hand.GetIsConsecutiveRanks | src/main/cardgame/common/Hand.java:95-113 | the loop answers whether each rank is followed by the next, allowing Five then Ace at the last step |
| Hands.Hand.GetIsSameSuit | src/main/cardgame/common/Hand.java:120-129 | the loop answers whether every card has the first card's suit |
| Hands.Hand.GetNumSameRankInTwoWayComparisons | src/main/cardgame/common/Hand.java:143-153 | the nested loops count the pairs of positions that hold equal ranks |
| Hands.Hand.FindRankPairCardDescending | src/main/cardgame/common/Hand.java:180-190 | the loop returns the pair search's result |
| PokerHands.Category | src/main/cardgame/poker/PokerHand.java:184-229 | null exactly when the hand is not full |
| PokerHands.PairCountOfFive | src/main/cardgame/poker/PokerHand.java:194-199 | the count is the ten two-way rank comparisons |
| PokerHands.PairCountOfSortedFive | src/main/cardgame/poker/PokerHand.java:201-227 | on sorted five cards the count is one of 0, 1, 2, 3, 4, 6 and 10, each meaning exactly one rank pattern (no pair, one pair, two pairs, three, full house, four, five) |
| PokerHands.ConsecutiveOfSortedFive | src/main/cardgame/common/Hand.java:95-113 | on sorted five cards the consecutive test accepts exactly the runs of five ranks and the wheel |
| PokerHands.PairBreaksRun | src/main/cardgame/common/Hand.java:95-113 | a hand with two neighbouring equal ranks is never consecutive |
| PokerHands.CategoryOfSortedFive | src/main/cardgame/poker/PokerHand.java:201-227 | each category holds exactly for the hands the classification's if-chain gives it, stated in terms of rank patterns, run and suit |
| PokerHands.CompareMiddleCard | src/main/cardgame/poker/PokerHand.java:174-177 | zero exactly for equal middle ranks, positive exactly when this hand's middle rank is higher |
| PokerHands.SinglesWithoutSkips | src/main/cardgame/poker/PokerHand.java:95-157 | with nothing skipped, the highest position where the ranks differ decides, and equal ranks throughout tie |
| PokerHands.NotFullIsBelow | src/main/cardgame/poker/PokerHand.java:235-239 | a hand that is not full compares as -1 against any hand, and a full hand compares as 1 against one that is not |
| PokerHands.CategoryDecides | src/main/cardgame/poker/PokerHand.java:233-240 | full hands of different categories compare as their categories do |
| PokerHands.MiddleCardDecides | src/main/cardgame/poker/PokerHand.java:244-257 | equal straights, straight flushes, fours, full houses and threes compare by the middle card's rank only |
| PokerHands.SingleCardsDecide | src/main/cardgame/poker/PokerHand.java:253-254 | equal flushes and no-rank hands compare at the highest position whose ranks differ |
| PokerHands.OnePairDecides | src/main/cardgame/poker/PokerHand.java:31-47 | equal one-pair hands with different pair ranks: the higher pair wins; with pairs of one rank, the single cards decide with the pairs skipped |
| PokerHands.TwoPairsDecide | src/main/cardgame/poker/PokerHand.java:58-85 | equal two-pair hands: the higher pair with the higher rank wins, then the lower pair with the higher rank; with both pairs of equal ranks, the single cards decide with the pairs skipped |
| PokerHands.WheelTiesSixHigh | src/main/cardgame/poker/PokerHand.java:244-245 | the wheel and the Six-high straight of the same flushness compare equal both ways |
| PokerHands.RunOfIsStraightFlush | src/main/cardgame/common/Hand.java:95-129 | a suited run of five is sorted, consecutive and of one suit |
| PokerHands.StraightFlushInAnyOrder | src/test/cardgame/poker/TestHandPokerRank.java:50-61 | a suited run of five, added in any order, classifies as a straight flush |
| PokerHands.WheelOfIsStraightFlush | src/main/cardgame/common/Hand.java:102-104 | the suited wheel is sorted, consecutive and of one suit |
| PokerHands.WheelStraightFlushInAnyOrder | src/test/cardgame/poker/TestHandPokerRank.java:64-75 | the suited wheel, added in any order, classifies as a straight flush |
| PokerHands.PairLookupsSucceed | src/main/cardgame/poker/PokerHand.java:60-70 | on a sorted hand without repeats the pair searches of both pair tie-breaks find a card |
| PokerHands.DealtHandsComparable | src/main/cardgame/poker/PokerHand.java:231-268 | two dealt hands can always be compared without a null pair card |
| PokerHands.GetPokerRank | src/main/cardgame/poker/PokerHand.java:184-229 | the hand's scans give exactly the category of its cards |
| PokerHands.CompareSingleCards | src/main/cardgame/poker/PokerHand.java:114-157 | the loop, with its skips and index mix-ups, gives the single-card comparison |
| PokerHands.CompareOnePair | src/main/cardgame/poker/PokerHand.java:31-47 | the one-pair tie-break's result |
| PokerHands.CompareTwoPair | src/main/cardgame/poker/PokerHand.java:58-85 | the two-pair tie-break's result |
| PokerHands.CompareHands | src/main/cardgame/poker/PokerHand.java:231-268 | `compareTo` on two hand objects gives the hand order on their cards |
| PokerHandExamples.OnePairTieBreakLose | src/test/cardgame/poker/TestHandComparable.java:12-28 | Kings with a Seven, Five and Two lose to Kings with a Seven, Six and Four |
| PokerHandExamples.OnePairTieBreakWin | src/test/cardgame/poker/TestHandComparable.java:30-46 | Eights beat Sixes |
| PokerHandExamples.OnePairTieBreakTie | src/test/cardgame/poker/TestHandComparable.java:48-64 | Sixes with the same kickers tie |
| PokerHandExamples.TwoPairsTieBreakLose | src/test/cardgame/poker/TestHandComparable.java:66-82 | Kings over Fours lose to Kings over Sevens |
| PokerHandExamples.TwoPairsTieBreakWin | src/test/cardgame/poker/TestHandComparable.java:84-100 | Jacks over Sixes beat Tens over Sixes |
| PokerHandExamples.TwoPairsTieBreakTie | src/test/cardgame/poker/TestHandComparable.java:102-118 | Tens over Sixes with a King tie |
| PokerHandExamples.OnePairKickerComparedWithItself | src/main/cardgame/poker/PokerHand.java:140 | Kings with 5-3-2 tie with Kings with 4-3-2, because the skipped hand's card is re-read from this hand |
| PokerHandExamples.TwoPairsKickerSkipped | src/main/cardgame/poker/PokerHand.java:121-141 | Kings and Twos with a Five tie with Kings and Twos with a Four: after both pairs of Kings are skipped, the other hand's card is re-read from this hand (line 140), so the Five is compared with itself |
| HandOrders.OnePairAt | src/main/cardgame/common/Hand.java:180-190 | in a sorted one-pair hand without repeats, the pair search stops at the upper card of the pair, at position 1 to 4, and every other rank is above the one below it |
| HandOrders.TwoPairsAt | src/main/cardgame/poker/PokerHand.java:60-69 | in a sorted two-pair hand without repeats, the two pair searches stop at the upper cards of the higher and the lower pair, at positions 4 and 2, 4 and 1, or 3 and 1, and every other rank is above the one below it |
| HandOrders.FirstPairEnd | src/main/cardgame/common/Hand.java:180-190 | in a dealt pair hand the first pair search stops at a position whose rank repeats just below it |
| HandOrders.OnePairPass11 | src/main/cardgame/poker/PokerHand.java:114-157 | the pair ending at 1 in the first hand and at 1 in the other: the loop compares, position by position, the first hand's 4 with 4, 3 with 3, 2 with 2. The loop answers the first of these rank comparisons that is not zero, or 0. |
| HandOrders.OnePairPass12 | src/main/cardgame/poker/PokerHand.java:114-157 | the pair ending at 1 in the first hand and at 2 in the other: the loop compares, position by position, the first hand's 4 with 4, 3 with 3, 2 with its own 0. The loop answers the first of these rank comparisons that is not zero, or 0. |
| HandOrders.OnePairPass13 | src/main/cardgame/poker/PokerHand.java:114-157 | the pair ending at 1 in the first hand and at 3 in the other: the loop compares, position by position, the first hand's 4 with 4, 3 with its own 1, 2 with 2. The loop answers the first of these rank comparisons that is not zero, or 0. |
| HandOrders.OnePairPass14 | src/main/cardgame/poker/PokerHand.java:114-157 | the pair ending at 1 in the first hand and at 4 in the other: the loop compares, position by position, the first hand's 4 with its own 2, 3 with 3, 2 with 2. The loop answers the first of these rank comparisons that is not zero, or 0. |
| HandOrders.OnePairPass21 | src/main/cardgame/poker/PokerHand.java:114-157 | the pair ending at 2 in the first hand and at 1 in the other: the loop compares, position by position, the first hand's 4 with 4, 3 with 3, 0 with 2. The loop answers the first of these rank comparisons that is not zero, or 0. |
| HandOrders.OnePairPass22 | src/main/cardgame/poker/PokerHand.java:114-157 | the pair ending at 2 in the first hand and at 2 in the other: the loop compares, position by position, the first hand's 4 with 4, 3 with 3, 0 with its own 0. The loop answers the first of these rank comparisons that is not zero, or 0. |
| HandOrders.OnePairPass23 | src/main/cardgame/poker/PokerHand.java:114-157 | the pair ending at 2 in the first hand and at 3 in the other: the loop compares, position by position, the first hand's 4 with 4, 3 with its own 1, 0 with 2. The loop answers the first of these rank comparisons that is not zero, or 0. |
| HandOrders.OnePairPass24 | src/main/cardgame/poker/PokerHand.java:114-157 | the pair ending at 2 in the first hand and at 4 in the other: the loop compares, position by position, the first hand's 4 with its own 2, 3 with 3, 0 with 2. The loop answers the first of these rank comparisons that is not zero, or 0. |
| HandOrders.OnePairPass31 | src/main/cardgame/poker/PokerHand.java:114-157 | the pair ending at 3 in the first hand and at 1 in the other: the loop compares, position by position, the first hand's 4 with 4, 1 with 3, 0 with 0. The loop answers the first of these rank comparisons that is not zero, or 0. |
| HandOrders.OnePairPass32 | src/main/cardgame/poker/PokerHand.java:114-157 | the pair ending at 3 in the first hand and at 2 in the other: the loop compares, position by position, the first hand's 4 with 4, 1 with 3, 0 with 0. The loop answers the first of these rank comparisons that is not zero, or 0. |
| HandOrders.OnePairPass33 | src/main/cardgame/poker/PokerHand.java:114-157 | the pair ending at 3 in the first hand and at 3 in the other: the loop compares, position by position, the first hand's 4 with 4, 1 with its own 1, 0 with 0. The loop answers the first of these rank comparisons that is not zero, or 0. |
| HandOrders.OnePairPass34 | src/main/cardgame/poker/PokerHand.java:114-157 | the pair ending at 3 in the first hand and at 4 in the other: the loop compares, position by position, the first hand's 4 with its own 2, 1 with 3, 0 with 0. The loop answers the first of these rank comparisons that is not zero, or 0. |
| HandOrders.OnePairPass41 | src/main/cardgame/poker/PokerHand.java:114-157 | the pair ending at 4 in the first hand and at 1 in the other: the loop compares, position by position, the first hand's 2 with 4, 1 with its own 1, 0 with 0. The loop answers the first of these rank comparisons that is not zero, or 0. |
| HandOrders.OnePairPass42 | src/main/cardgame/poker/PokerHand.java:114-157 | the pair ending at 4 in the first hand and at 2 in the other: the loop compares, position by position, the first hand's 2 with 4, 1 with 1, 0 with 0. The loop answers the first of these rank comparisons that is not zero, or 0. |
| HandOrders.OnePairPass43 | src/main/cardgame/poker/PokerHand.java:114-157 | the pair ending at 4 in the first hand and at 3 in the other: the loop compares, position by position, the first hand's 2 with 4, 1 with 1, 0 with 0. The loop answers the first of these rank comparisons that is not zero, or 0. |
| HandOrders.OnePairPass44 | src/main/cardgame/poker/PokerHand.java:114-157 | the pair ending at 4 in the first hand and at 4 in the other: the loop compares, position by position, the first hand's 2 with its own 2, 1 with 1, 0 with 0. The loop answers the first of these rank comparisons that is not zero, or 0. |
| HandOrders.TwoPairsPass4242 | src/main/cardgame/poker/PokerHand.java:114-157 | pairs ending at 4/2 in the first hand and at 4/2 in the other: the loop compares, position by position, the first hand's 2 with its own 2, 1 with 1, 0 with 0. The loop answers the first of these rank comparisons that is not zero, or 0. |
| HandOrders.TwoPairsPass4241 | src/main/cardgame/poker/PokerHand.java:114-157 | pairs ending at 4/2 in the first hand and at 4/1 in the other: the loop compares, position by position, the first hand's 2 with its own 2. The loop answers the first of these rank comparisons that is not zero, or 0. |
| HandOrders.TwoPairsPass4231 | src/main/cardgame/poker/PokerHand.java:114-157 | pairs ending at 4/2 in the first hand and at 3/1 in the other: the loop compares, position by position, the first hand's 2 with 4, 1 with its own 1, 0 with 0. The loop answers the first of these rank comparisons that is not zero, or 0. |
| HandOrders.TwoPairsPass4142 | src/main/cardgame/poker/PokerHand.java:114-157 | pairs ending at 4/1 in the first hand and at 4/2 in the other: the loop compares, position by position, the first hand's 2 with its own 2. The loop answers the first of these rank comparisons that is not zero, or 0. |
| HandOrders.TwoPairsPass4141 | src/main/cardgame/poker/PokerHand.java:114-157 | pairs ending at 4/1 in the first hand and at 4/1 in the other: the loop compares, position by position, the first hand's 2 with its own 2. The loop answers the first of these rank comparisons that is not zero, or 0. |
| HandOrders.TwoPairsPass4131 | src/main/cardgame/poker/PokerHand.java:114-157 | pairs ending at 4/1 in the first hand and at 3/1 in the other: the loop compares, position by position, the first hand's 2 with 4. The loop answers the first of these rank comparisons that is not zero, or 0. |
| HandOrders.TwoPairsPass3142 | src/main/cardgame/poker/PokerHand.java:114-157 | pairs ending at 3/1 in the first hand and at 4/2 in the other: the loop compares, position by position, the first hand's 4 with its own 2, 1 with 3, 0 with 0. The loop answers the first of these rank comparisons that is not zero, or 0. |
| HandOrders.TwoPairsPass3141 | src/main/cardgame/poker/PokerHand.java:114-157 | pairs ending at 3/1 in the first hand and at 4/1 in the other: the loop compares, position by position, the first hand's 4 with its own 2, 1 with 3, 0 with 0. The loop answers the first of these rank comparisons that is not zero, or 0. |
| HandOrders.TwoPairsPass3131 | src/main/cardgame/poker/PokerHand.java:114-157 | pairs ending at 3/1 in the first hand and at 3/1 in the other: the loop compares, position by position, the first hand's 4 with 4, 1 with its own 1, 0 with 0. The loop answers the first of these rank comparisons that is not zero, or 0. |
| HandOrders.OnePairLoop1 | src/main/cardgame/poker/PokerHand.java:114-157 | one-pair hands with equal pair ranks, the first hand's pair ending at position 1: the single-card loop asked both ways round gives opposite signs, or zero both times |
| HandOrders.OnePairLoop2 | src/main/cardgame/poker/PokerHand.java:114-157 | the same, the first hand's pair ending at position 2 |
| HandOrders.OnePairLoop3 | src/main/cardgame/poker/PokerHand.java:114-157 | the same, the first hand's pair ending at position 3 |
| HandOrders.OnePairLoop4 | src/main/cardgame/poker/PokerHand.java:114-157 | the same, the first hand's pair ending at position 4 |
| HandOrders.TwoPairsLoop42 | src/main/cardgame/poker/PokerHand.java:114-157 | two-pair hands with equal pair ranks, the first hand's pairs ending at positions 4 and 2: the single-card loop asked both ways round gives opposite signs, or zero both times |
| HandOrders.TwoPairsLoop41 | src/main/cardgame/poker/PokerHand.java:114-157 | the same, the first hand's pairs ending at positions 4 and 1 |
| HandOrders.TwoPairsLoop31 | src/main/cardgame/poker/PokerHand.java:114-157 | the same, the first hand's pairs ending at positions 3 and 1 |
| HandOrders.ScoresOfCategories | src/main/cardgame/poker/PokerHand.java:233-241 | full hands of different categories have scores ordered as the categories, and `compareTo` follows them |
| HandOrders.MiddleCardDetail | src/main/cardgame/poker/PokerHand.java:244-260 | equal straights, straight flushes, fours, full houses and threes compare as their scores, which differ only in the middle card's rank |
| HandOrders.RankNumberDetail | src/main/cardgame/poker/PokerHand.java:253-254 | equal flushes and no-rank hands compare as their five ranks read as a number in base 13, top card first |
| HandOrders.OnePairDetail | src/main/cardgame/poker/PokerHand.java:31-47 | equal one-pair hands compare as their pair ranks; equal pair ranks leave the single-card loop to decide |
| HandOrders.TwoPairsDetail | src/main/cardgame/poker/PokerHand.java:58-85 | equal two-pair hands compare as their higher and then lower pair ranks; equal pair ranks leave the single-card loop to decide |
| HandOrders.ScoreDecides | src/main/cardgame/poker/PokerHand.java:231-268 | dealt hands compare as their scores (category, then what the tie-break reads); only pair hands with equal scores, whose pairs then have the same ranks, go on to the single-card loop |
| HandOrders.CompareAntisymmetric | src/main/cardgame/poker/PokerHand.java:231-268 | two dealt hands compared both ways round give opposite signs, or zero both times, and neither comparison meets a null pair card |
| HandOrders.FiveCardsTwoRanks | src/main/cardgame/common/Deck.java:23-28 | five different cards never share one rank, since a rank comes in four suits |
| HandOrders.PairsOfThreeHands | src/main/cardgame/common/Deck.java:23-28 | three hands with no card in common cannot each hold two neighbouring cards of one and the same rank |
| HandOrders.NoRankPairedThrice | src/main/cardgame/common/Deck.java:23-28 | of three dealt pair hands with no card in common, the first pairs are not all of one rank |
| HandOrders.CompareTransitive | src/main/cardgame/poker/PokerHand.java:231-268 | dealt hands with no card in common: a hand at most a second, which is at most a third, is at most the third |
| FiveCardDraws.NoCardTwiceWithinDeck | src/main/cardgame/poker/FiveCardDraw.java:25-32 | holding no card twice is the same as holding part of one full deck |
| FiveCardDraws.FromOneDeckHandDistinct | src/main/cardgame/poker/FiveCardDraw.java:56-76 | every hand dealt from the one deck holds no card twice |
| FiveCardDraws.DiscardKeepsCards | src/main/cardgame/poker/FiveCardDraw.java:149-157 | the kept and the discarded cards together are the old hand |
| FiveCardDraws.DiscardPlan | src/main/cardgame/poker/FiveCardDraw.java:149-157 | sorting the chosen positions keeps them distinct, in range and the same set, so the discard loop can run |
| FiveCardDraws.DiscardingHighestFirst | src/main/cardgame/poker/FiveCardDraw.java:150-157 | removing the highest position first leaves the unchosen cards in order and puts the chosen ones on the discard deck, highest position first |
| FiveCardDraws.Seat | src/main/cardgame/poker/FiveCardDraw.java:195 | the seat of the `k`-th player served is a seat of the table |
| FiveCardDraws.SeatsGoRound | src/main/cardgame/poker/FiveCardDraw.java:195-200 | serving from one seat after the dealer visits every seat exactly once, and `TurnsBefore` inverts `Seat` |
| FiveCardDraws.NextSeat | src/main/cardgame/poker/FiveCardDraw.java:221 | the next player served sits one seat further round, modulo the table |
| FiveCardDraws.SeatAfterPass | src/main/cardgame/poker/FiveCardDraw.java:213-222 | after a full pass, the deal resumes at the first seat served |
| FiveCardDraws.PassesDealPerPlayer | src/main/cardgame/poker/FiveCardDraw.java:215-216 | `i` passes round a table of `n` players deal `i * n` cards, so the five passes deal five cards per player |
| FiveCardDraws.ServingOrder | src/main/cardgame/poker/FiveCardDraw.java:235-244 | the serving order starts after the dealer, goes round one seat at a time and visits each seat once |
| FiveCardDraws.DealtAll | src/main/cardgame/poker/FiveCardDraw.java:210-225 | after five full passes every hand is full |
| FiveCardDraws.DealConserves | src/main/cardgame/poker/FiveCardDraw.java:56-76 | a dealt card leaves the decks and either joins the hand or, when the hand is full, is lost |
| FiveCardDraws.DiscardMoves | src/main/cardgame/poker/FiveCardDraw.java:153-155 | moving a card from a hand to the discard deck keeps the table to cards of one deck |
| FiveCardDraws.RankedAscends | src/main/cardgame/poker/FiveCardDraw.java:252-275 | in the scored order, each hand compares at most equal to every hand after it |
| FiveCardDraws.PlaceAmong | src/main/cardgame/poker/FiveCardDraw.java:255 | where the stable sort inserts a seat: every seat after it compares above the seat, and the seat just before it does not |
| FiveCardDraws.InsertFromArranged | src/main/cardgame/poker/FiveCardDraw.java:255 | inserting the remaining seats into an arrangement of the seats so far lists every seat once |
| FiveCardDraws.InsertFromRanked | src/main/cardgame/poker/FiveCardDraw.java:255 | under a consistent comparator, inserting the remaining seats into ranked seats lists every seat once, ranked |
| FiveCardDraws.InsertRanked | src/main/cardgame/poker/FiveCardDraw.java:255 | one insertion at the place `PlaceAmong` finds keeps the seats ranked |
| FiveCardDraws.InsertedPair | src/main/cardgame/poker/FiveCardDraw.java:255 | any two positions after one insertion are in order |
| FiveCardDraws.RankedBelowInserted | src/main/cardgame/poker/FiveCardDraw.java:255 | under a consistent comparator, every seat before the insertion point compares at most equal to the inserted seat, and is a lower seat |
| FiveCardDraws.InsertArranged | src/main/cardgame/poker/FiveCardDraw.java:255 | inserting the next seat anywhere into an arrangement of the seats below it arranges the seats up to it |
| FiveCardDraws.SortSeatsRanked | src/main/cardgame/poker/FiveCardDraw.java:254-273 | under a consistent comparator, the stable sort lists every seat once, ascending, with ties in seat order |
| FiveCardDraws.SeatsDisjoint | src/main/cardgame/poker/FiveCardDraw.java:56-76 | two seats of a table dealt from one deck share no card |
| FiveCardDraws.FullTableConsistent | src/main/cardgame/poker/FiveCardDraw.java:252-275 | when every seat holds a full hand dealt from one deck, `compareTo` is antisymmetric and transitive on the seats, the contract `Collections.sort` demands, and every two hands can be compared |
| FiveCardDraws.DealtTableAntisymmetric | src/main/cardgame/poker/FiveCardDraw.java:252-275 | seats with dealt hands can all be compared, and compare the opposite way round each way |
| FiveCardDraws.DealtTableTransitive | src/main/cardgame/poker/FiveCardDraw.java:252-275 | seats with dealt hands and no card in common compare transitively |
| FiveCardDraws.ShortHandsInconsistent | src/main/cardgame/poker/PokerHand.java:235-239 | two seats holding hands that are not full each compare below the other, so the comparator breaks its contract |
| FiveCardDraws.LastWins | src/main/cardgame/poker/FiveCardDraw.java:249-250 | the player listed last holds a hand that no other hand compares above |
| FiveCardDraws.FiveCardDraw.constructor | src/main/cardgame/poker/FiveCardDraw.java:25-32 | no players, dealer seat 0, an empty game deck, and a shuffled full deck as the discard deck |
| FiveCardDraws.FiveCardDraw.AddPlayer | src/main/cardgame/poker/FiveCardDraw.java:40-47 | as the game's `addPlayer`; a new player also gets an empty five-card hand, and no card appears or disappears |
| FiveCardDraws.FiveCardDraw.GiveHand | src/main/cardgame/poker/FiveCardDraw.java:43-45 | the new player's hand is a fresh, empty five-card hand |
| FiveCardDraws.FiveCardDraw.DealCard | src/main/cardgame/poker/FiveCardDraw.java:56-76 | the game ends exactly when both decks are empty. Otherwise the top card of the game deck, or of the shuffled discard deck, goes to the hand. A full hand loses the card. |
| FiveCardDraws.FiveCardDraw.Draw | src/main/cardgame/poker/FiveCardDraw.java:58-74 | draw from the game deck, or else from the shuffled discard deck; none exactly when both are empty |
| FiveCardDraws.FiveCardDraw.Give | src/main/cardgame/poker/FiveCardDraw.java:60-62 | the drawn card goes to that player's hand only, and the table stays cards of one deck |
| FiveCardDraws.FiveCardDraw.Turn | src/main/cardgame/poker/FiveCardDraw.java:165-174 | the hand becomes full, or the game ends with both decks empty. It ends exactly when the decks held fewer cards than the hand lacked. No card is lost. |
| FiveCardDraws.FiveCardDraw.DiscardAt | src/main/cardgame/poker/FiveCardDraw.java:153-155 | the card at the position goes to the bottom of the discard deck and leaves the hand |
| FiveCardDraws.FiveCardDraw.DiscardSorted | src/main/cardgame/poker/FiveCardDraw.java:150-157 | the hand keeps the unchosen cards in order; the discard deck gains the chosen ones, highest position first |
| FiveCardDraws.FiveCardDraw.DiscardLast | src/main/cardgame/poker/FiveCardDraw.java:150-157 | one pass of the discard loop keeps its invariant |
| FiveCardDraws.FiveCardDraw.BeforeTurn | src/main/cardgame/poker/FiveCardDraw.java:143-158 | the chosen positions are sorted and discarded highest first. The hand loses exactly those cards; the discard deck gains them. No card is lost. |
| FiveCardDraws.FiveCardDraw.DealCards | src/main/cardgame/poker/FiveCardDraw.java:210-225 | the game ends exactly when the decks hold fewer than five cards per player; otherwise every hand is full. When every hand starts empty, no card is lost. |
| FiveCardDraws.FiveCardDraw.DealPasses | src/main/cardgame/poker/FiveCardDraw.java:215-224 | the outer loop's five passes, each starting at the seat where the one before stopped, keep the dealing invariant |
| FiveCardDraws.FiveCardDraw.StartDealing | src/main/cardgame/poker/FiveCardDraw.java:211-213 | dealing starts one seat after the dealer with nothing dealt |
| FiveCardDraws.FiveCardDraw.EndDealing | src/main/cardgame/poker/FiveCardDraw.java:215-224 | after five passes the game has ended exactly when cards ran short; otherwise every hand is full |
| FiveCardDraws.FiveCardDraw.DealPass | src/main/cardgame/poker/FiveCardDraw.java:216-222 | one pass of the outer loop deals one more card to each seat, or ends the game |
| FiveCardDraws.FiveCardDraw.DealInPass | src/main/cardgame/poker/FiveCardDraw.java:217-221 | one step of the inner loop deals to the next seat served, or ends the game |
| FiveCardDraws.FiveCardDraw.Round | src/main/cardgame/poker/FiveCardDraw.java:231-246 | turns go round from the seat after the dealer. Every hand is filled unless the cards run short, and the game ends exactly then. The seats served before the end are full. No card is lost. |
| FiveCardDraws.FiveCardDraw.TakeTurn | src/main/cardgame/poker/FiveCardDraw.java:238-243 | one turn of the round fills the seat's hand or stops the round |
| FiveCardDraws.FiveCardDraw.EndRound | src/main/cardgame/poker/FiveCardDraw.java:236-245 | at the end of the round, the game has ended exactly when cards ran short |
| FiveCardDraws.FiveCardDraw.BeforeRound | src/main/cardgame/poker/FiveCardDraw.java:189-203 | the game ends exactly when the decks hold fewer than five cards per player. Otherwise, from the seat after the dealer, each player discards the positions chosen for their turn and keeps five minus that many cards. |
| FiveCardDraws.FiveCardDraw.PromptTurn | src/main/cardgame/poker/FiveCardDraw.java:196-199 | one turn of the discarding keeps the discards of the seats served so far |
| FiveCardDraws.FiveCardDraw.ScoreRound | src/main/cardgame/poker/FiveCardDraw.java:252-275 | the players, each once, sorted by hand from lowest to highest, with equal hands in seat order |
| FiveCardDraws.FiveCardDraw.AfterRound | src/main/cardgame/common/Game.java:55-57 | the result of `scoreRound` |
| FiveCardDraws.FiveCardDraw.FullSeatsConsistent | src/main/cardgame/poker/FiveCardDraw.java:252-275 | once every player holds a full hand, as `round` leaves them unless the game ended, `scoreRound` has the consistent comparator it requires |
| FiveCardDraws.FiveCardDraw.SeatsComparable | src/main/cardgame/poker/FiveCardDraw.java:255-273 | hands dealt from one deck can always be compared |

## Left out

- Console input: `promptForDiscards`, `promptForNumDiscards` and `promptForDiscardPositions` (`FiveCardDraw.java:82-137`) are not modelled. Their result is a parameter of `BeforeRound`, restricted by `Choice` to what the prompts accept: distinct positions from 0 to 4.
- Console output is not modelled:
  - `afterTurn`;
  - the dealer line that `dealCards` prints;
  - the prints in `beforeTurn`;
  - the `toString` methods of `Hand`, `PokerHand`, `Deck` and `Player`.
  `Card`, `Rank` and `Suit` printing is modelled, because `getInstance` parses it.
- `CardGame.java`, the main program, is not part of this model.
- The randomness of `Collections.shuffle` is not modelled. A shuffle yields some permutation of the cards; which one is left open.
- Java generics and the abstract class `Game` become composition: `FiveCardDraw` holds a `Game`. A `PokerHand` is a `Hand` with capacity five. `getPlayers`, `getDeck`, `getPlayerNames`, `getName`, `getHand`, `getCards` and the getters of `Card` are field reads.
- The `instanceof` checks in the comparator of `scoreRound` always succeed in the model, because every hand is a poker hand. Their -1 and 1 branches are not modelled.
- Text.UpperChar: `String.toUpperCase` is modelled for ASCII letters only. Java also upper-cases other characters, for example "ſ" (U+017F, long s) to "S". This affects `Suits.FromString` and `Suits.FromStringRejects`: `Suit.fromString("ſ")` gives SPADES in the Java (`Suit.java:38-39`), and so `getInstance("Kſ")` gives the King of Spades, where the model gives `None` for both. No non-ASCII character upper-cases to a rank label, so `Ranks.FromString` is unaffected.
- Exceptions are not modelled:
  - a negative index passed to `getCard` or `removeCard`;
  - `getInstance(null)`, which throws at `cardString.length()` (`Card.java:33`): the model's `string` parameter cannot be null. A null result for a string that names no card is modelled, as `None`;
  - the division by zero in `(dealerPlayerIndex + 1) % numPlayers` on a game without players (`FiveCardDraw.java:195`, `213`, `235`);
  - a null card reaching the discard deck (below).
  Callers are required not to cause them; each case is named again below against the member that requires it.
- Cards.GetInstance: string length and positions are counted in characters (Unicode scalar values). Java counts UTF-16 code units, so a string with a character outside the Basic Multilingual Plane splits differently: "KH" followed by an emoji is four units in Java, which reads the King of Hearts, and three characters here, which is rejected.
- FiveCardDraws.FiveCardDraw.DealCards: requires at least one player. With none, the Java throws an `ArithmeticException` from `% numPlayers` (`FiveCardDraw.java:213`).
- FiveCardDraws.FiveCardDraw.Round: requires at least one player, for the same reason (`FiveCardDraw.java:235`).
- FiveCardDraws.FiveCardDraw.BeforeRound: requires at least one player, for the same reason (`FiveCardDraw.java:195`).
- FiveCardDraws.FiveCardDraw.DiscardAt: requires a position below the hand size. Past the end, the Java's `getCard` returns null, null is added to the discard deck, and `removeCard` does nothing. The prompts only give positions 0 to 4, and hands are full when the players discard.
- FiveCardDraws.FiveCardDraw.BeforeTurn: requires positions below the hand size, for the same reason as `DiscardAt`.
- FiveCardDraws.FiveCardDraw.ScoreRound: requires `ConsistentOn(table)`, meaning `compareTo` is antisymmetric and transitive on the dealt hands.
  - `FullSeatsConsistent` proves the condition whenever every hand is full, which is how `round` leaves the table unless the game ended. The index mix-ups of the single-card tie-break do not break it there.
  - Two or more hands that are not full do break it: each compares below the other (`PokerHand.java:235-239`, `ShortHandsInconsistent`). `Collections.sort` may then throw or give any order, and the model promises nothing.
  - Under this condition every stable sort, and so Java's, gives the order the contract states.
- FiveCardDraws.FiveCardDraw.AfterRound: the same condition as `ScoreRound`.
- PokerHands.CompareHands: requires `ComparisonDefined`, so that the pair searches of the pair tie-breaks find a card. Where the Java dereferences a null pair card, the model does not capture the exception. `DealtHandsComparable` shows that hands dealt from one deck always satisfy it.
- PokerHands.CompareOnePair: requires that both pair searches succeed (same reason as `CompareHands`).
- PokerHands.CompareTwoPair: requires that the pair searches succeed (same reason as `CompareHands`).
- Hands.Hand.FindRankPairCardDescending: requires `start` below the hand size or at most 0. A positive `start` at or past the size makes `getCard(start)` return null, which the Java dereferences. A `start` of 0 or less is allowed on any hand, the empty one included: the loop does not run and the result is null.
- Hands.Hand.GetIsConsecutiveRanks: stated for full hands, the only hands `getPokerRank` calls it on. On a shorter hand the Java returns false when a rank that does not follow on comes before the first missing card, and otherwise throws `IndexOutOfBoundsException` (`Hand.java:98-108`).
- Hands.Hand.GetIsSameSuit: stated for full hands, for the same reason. On a shorter hand the Java returns false when a card of another suit comes before the first missing card, and otherwise throws `IndexOutOfBoundsException` (`Hand.java:121-126`).
- Hands.Hand.GetNumSameRankInTwoWayComparisons: stated for full hands, for the same reason. On a shorter hand the Java always throws `IndexOutOfBoundsException`, because the inner index reaches the hand size on the first pass (`Hand.java:145-147`).
- FiveCardDraws.FiveCardDraw.BeforeRound: when the game does not end, states how many cards each hand keeps, not which ones. When the game ends, it does not say how many cards each hand holds. When every hand starts empty, it states that no card appears or disappears. `BeforeTurn` states the kept cards and the discard deck for one player.
- FiveCardDraws.FiveCardDraw.DealCards: when the game does not end, states that every hand is full. When every hand starts empty, as it does before a round, states that no card appears or disappears; otherwise a card dealt to a full hand is lost. When the game ends, it does not say how many cards each hand holds. It never says which card reaches which seat; `DealCard` states that for a single card.
- FiveCardDraws.FiveCardDraw.Round: states that no card appears or disappears, that the players served before the stopping turn hold full hands and that those after it keep their cards. It does not say which card reaches which seat.
