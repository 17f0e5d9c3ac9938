/** A playing card, its natural order and its shorthand text form ("KH", "10D"). */
module Cards {
  import opened Options
  import Ranks
  import Suits
  import Text

  /** An immutable (rank, suit) pair; two cards are equal when both parts are. */
  datatype Card = Card(rank: Ranks.Rank, suit: Suits.Suit)

  /** The position of a card in rank-then-suit order, 0 (Two of Diamonds) to 51 (Ace of Spades). */
  function Key(c: Card): (k: int)
    ensures 0 <= k < 52
  {
    4 * Ranks.Ordinal(c.rank) + Suits.Ordinal(c.suit)
  }

  /** `compareTo`: compare the ranks and, only when they are equal, the suits. */
  function CompareTo(a: Card, b: Card): (c: int)
    ensures c == 0 <==> a == b
    ensures c < 0 <==> Key(a) < Key(b)
    ensures c > 0 <==> Key(a) > Key(b)
  {
    var result := Ranks.CompareTo(a.rank, b.rank);
    if result == 0 then Suits.CompareTo(a.suit, b.suit) else result
  }

  /** `equals`: true exactly for a non-null card with the same rank and suit. */
  function Equals(c: Card, o: Option<Card>): (e: bool)
    ensures e <==> o == Some(c)
  {
    o.Some? && o.value.rank == c.rank && o.value.suit == c.suit
  }

  /**
   * `toString`: the rank label followed by the suit initial, three characters for a Ten and
   * two otherwise, which is how `getInstance` tells the two fields apart.
   */
  function ToString(c: Card): (s: string)
    ensures |s| == if c.rank == Ranks.Ten then 3 else 2
    ensures s[|s| - 1] in "DCHS"
  {
    Ranks.LabelLength(c.rank);
    Ranks.Label(c.rank) + Suits.Initial(c.suit)
  }

  /** The characters `getInstance` reads as the rank label: two for a three-character string, else one. */
  function RankField(s: string): string
    requires |s| >= 2
  {
    if |s| == 3 then s[..2] else s[..1]
  }

  /** The character `getInstance` reads as the suit initial: the third of three, else the second. */
  function SuitField(s: string): string
    requires |s| >= 2
  {
    if |s| == 3 then s[2..3] else s[1..2]
  }

  /** `getInstance`: parse the shorthand form; None when too short or a label is unknown. */
  function GetInstance(s: string): (c: Option<Card>)
    ensures |s| < 2 ==> c == None
    ensures c.Some? ==>
      (Text.ToUpper(RankField(s)) == Ranks.Label(c.value.rank) && Text.ToUpper(SuitField(s)) == Suits.Initial(c.value.suit))
    ensures forall q: Card ::
      (|s| >= 2 && Text.ToUpper(RankField(s)) == Ranks.Label(q.rank) && Text.ToUpper(SuitField(s)) == Suits.Initial(q.suit))
      ==> c == Some(q)
  {
    if |s| >= 2 then
      var rank := Ranks.FromString(Some(RankField(s)));
      var suit := Suits.FromString(Some(SuitField(s)));
      if rank.Some? && suit.Some? then Some(Card(rank.value, suit.value)) else None
    else
      None
  }

  /** Parsing what `toString` prints gives the card back, for all 52 cards. */
  lemma {:induction false} ToStringRoundTrip(c: Card)
    ensures GetInstance(ToString(c)) == Some(c)
  {
    var s := ToString(c);
    Text.UpperFixesUpper(Ranks.Label(c.rank));
    Text.UpperFixesUpper(Suits.Initial(c.suit));
    Ranks.LabelLength(c.rank);
    assert RankField(s) == Ranks.Label(c.rank);
    assert SuitField(s) == Suits.Initial(c.suit);
  }

  /** Beyond three characters only the first two are read: "KHX" is rejected but "KHXY" is the King of Hearts. */
  lemma GetInstanceIgnoresTail(s: string)
    requires |s| >= 4
    ensures GetInstance(s) == GetInstance(s[..2])
  {
    assert RankField(s) == RankField(s[..2]);
    assert SuitField(s) == SuitField(s[..2]);
  }

  lemma GetInstanceExamples()
    ensures GetInstance("KHXY") == Some(Card(Ranks.King, Suits.Hearts))
    ensures GetInstance("KHX") == None
    ensures GetInstance("10d") == Some(Card(Ranks.Ten, Suits.Diamonds))
    ensures GetInstance("1") == None
  {
    ExtraCharactersIgnored();
    ThreeCharacterRankRefused();
    LowerCaseSuitAccepted();
  }

  lemma ExtraCharactersIgnored()
    ensures GetInstance("KHXY") == Some(Card(Ranks.King, Suits.Hearts))
  {
    var c := Card(Ranks.King, Suits.Hearts);
    assert ToString(c) == "KH" == "KHXY"[..2];
    GetInstanceIgnoresTail("KHXY");
    ToStringRoundTrip(c);
  }

  lemma ThreeCharacterRankRefused()
    ensures GetInstance("KHX") == None
  {
    assert Text.ToUpper(RankField("KHX")) == "KH";
  }

  lemma LowerCaseSuitAccepted()
    ensures GetInstance("10d") == Some(Card(Ranks.Ten, Suits.Diamonds))
  {
    assert Text.ToUpper(RankField("10d")) == "10";
    assert SuitField("10d") == "d";
    assert Text.ToUpper("d") == "D";
  }

  /** Cards of different rank compare as their ranks do, whatever the suits; equal ranks compare by suit. */
  lemma RankDecides(a: Card, b: Card)
    ensures a.rank != b.rank ==> CompareTo(a, b) == Ranks.CompareTo(a.rank, b.rank)
    ensures a.rank == b.rank ==> CompareTo(a, b) == Suits.CompareTo(a.suit, b.suit)
    ensures a.rank == b.rank && a.suit != b.suit ==> CompareTo(a, b) != 0
  {
  }

  /** `compareTo` is zero exactly when `equals` holds. */
  lemma CompareAgreesWithEquals(a: Card, b: Card)
    ensures CompareTo(a, b) == 0 <==> Equals(a, Some(b))
  {
  }

  /** `compareTo` is a total order on the 52 cards. */
  lemma CompareIsTotalOrder(a: Card, b: Card, c: Card)
    ensures CompareTo(a, b) == -CompareTo(b, a)
    ensures CompareTo(a, b) <= 0 && CompareTo(b, c) <= 0 ==> CompareTo(a, c) <= 0
    ensures CompareTo(a, b) < 0 && CompareTo(b, c) < 0 ==> CompareTo(a, c) < 0
    ensures CompareTo(a, b) <= 0 || CompareTo(b, a) <= 0
  {
  }

  /** The fixed results the card tests assert. */
  lemma CompareExamples()
    ensures CompareTo(Card(Ranks.Two, Suits.Clubs), Card(Ranks.Three, Suits.Clubs)) == -1
    ensures CompareTo(Card(Ranks.Three, Suits.Clubs), Card(Ranks.Two, Suits.Clubs)) == 1
    ensures CompareTo(Card(Ranks.Three, Suits.Clubs), Card(Ranks.Three, Suits.Clubs)) == 0
    ensures CompareTo(Card(Ranks.Three, Suits.Clubs), Card(Ranks.Three, Suits.Diamonds)) != 0
    ensures CompareTo(Card(Ranks.Jack, Suits.Spades), Card(Ranks.Queen, Suits.Diamonds)) == -1
    ensures CompareTo(Card(Ranks.King, Suits.Hearts), Card(Ranks.Queen, Suits.Diamonds)) == 1
    ensures CompareTo(Card(Ranks.Ace, Suits.Diamonds), Card(Ranks.King, Suits.Clubs)) == 1
  {
  }
}
