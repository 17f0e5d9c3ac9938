/** The suit of a playing card: Diamonds, Clubs, Hearts, Spades, in declaration order. */
module Suits {
  import opened Options
  import Text

  datatype Suit = Diamonds | Clubs | Hearts | Spades

  /** The suits in declaration order, as `Suit.values()` lists them. */
  const Values: seq<Suit> := [Diamonds, Clubs, Hearts, Spades]

  /** The position of a suit in declaration order (`ordinal()`). */
  function Ordinal(s: Suit): (o: nat)
    ensures o < |Values| && Values[o] == s
  {
    match s
    case Diamonds => 0
    case Clubs => 1
    case Hearts => 2
    case Spades => 3
  }

  /** The initial each suit is declared with; `toString` returns it. */
  function Initial(s: Suit): string {
    match s
    case Diamonds => "D"
    case Clubs => "C"
    case Hearts => "H"
    case Spades => "S"
  }

  /** The enum's `compareTo`: the difference of the two ordinals. */
  function CompareTo(a: Suit, b: Suit): (c: int)
    ensures c == 0 <==> a == b
  {
    Ordinal(a) - Ordinal(b)
  }

  /** The initial-to-suit table the static initialiser fills: one entry per suit, keyed by its upper-cased initial. */
  const InitialMap: map<string, Suit> := map["D" := Diamonds, "C" := Clubs, "H" := Hearts, "S" := Spades]

  /** `fromString`: the suit whose initial matches `s` ignoring case; None for null or anything else. */
  function FromString(s: Option<string>): (r: Option<Suit>)
    ensures r.Some? ==> s.Some? && Text.ToUpper(s.value) == Initial(r.value)
    ensures forall q :: s.Some? && Text.ToUpper(s.value) == Initial(q) ==> r == Some(q)
  {
    if s.Some? && Text.ToUpper(s.value) in InitialMap then Some(InitialMap[Text.ToUpper(s.value)]) else None
  }

  /** The initial table holds exactly one entry per suit, keyed by its upper-cased initial. */
  lemma InitialMapHoldsEverySuit()
    ensures forall s :: Text.ToUpper(Initial(s)) in InitialMap && InitialMap[Text.ToUpper(Initial(s))] == s
    ensures forall k :: k in InitialMap ==> Initial(InitialMap[k]) == k
  {
    forall s ensures Text.ToUpper(Initial(s)) == Initial(s) {
      Text.UpperFixesUpper(Initial(s));
    }
  }

  lemma FromStringRoundTrip(s: Suit)
    ensures FromString(Some(Initial(s))) == Some(s)
  {
    Text.UpperFixesUpper(Initial(s));
  }

  /** Lower-case initials are accepted too: "d" is Diamonds. */
  lemma FromStringLowerCase()
    ensures FromString(Some("d")) == Some(Diamonds)
    ensures FromString(Some("c")) == Some(Clubs)
    ensures FromString(Some("h")) == Some(Hearts)
    ensures FromString(Some("s")) == Some(Spades)
  {
    assert Text.ToUpper("d") == "D";
    assert Text.ToUpper("c") == "C";
    assert Text.ToUpper("h") == "H";
    assert Text.ToUpper("s") == "S";
  }

  /** Anything but one of the four initials, in either case, is rejected. */
  lemma FromStringRejects(s: Option<string>)
    requires s.Some? ==> forall q :: Text.ToUpper(s.value) != Initial(q)
    ensures FromString(s) == None
  {
  }

  /** Exactly four suits, in the order Diamonds < Clubs < Hearts < Spades, with distinct initials. */
  lemma SuitOrder()
    ensures |Values| == 4
    ensures forall i, j :: 0 <= i < j < |Values| ==> CompareTo(Values[i], Values[j]) < 0
    ensures forall a, b :: Initial(a) == Initial(b) ==> a == b
  {
  }

  /** `values()[n]` has ordinal `n`. */
  lemma OrdinalOfValues(n: int)
    requires 0 <= n < |Values|
    ensures Ordinal(Values[n]) == n
  {
  }
}
