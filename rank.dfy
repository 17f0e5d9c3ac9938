/** The rank of a playing card, Two through Ace, in increasing order. */
module Ranks {
  import opened Options
  import Text

  datatype Rank = Two | Three | Four | Five | Six | Seven | Eight | Nine | Ten | Jack | Queen | King | Ace

  /** The ranks in declaration order, as `Rank.values()` lists them. */
  const Values: seq<Rank> := [Two, Three, Four, Five, Six, Seven, Eight, Nine, Ten, Jack, Queen, King, Ace]

  /** The least and the greatest rank value, both inclusive. */
  const MinValue: int := 2
  const MaxValue: int := 14

  /** The position of a rank in declaration order (`ordinal()`). */
  function Ordinal(r: Rank): (o: nat)
    ensures o < |Values| && Values[o] == r
  {
    match r
    case Two => 0
    case Three => 1
    case Four => 2
    case Five => 3
    case Six => 4
    case Seven => 5
    case Eight => 6
    case Nine => 7
    case Ten => 8
    case Jack => 9
    case Queen => 10
    case King => 11
    case Ace => 12
  }

  /** The numeric value each rank is declared with. */
  function Value(r: Rank): int {
    match r
    case Two => 2
    case Three => 3
    case Four => 4
    case Five => 5
    case Six => 6
    case Seven => 7
    case Eight => 8
    case Nine => 9
    case Ten => 10
    case Jack => 11
    case Queen => 12
    case King => 13
    case Ace => 14
  }

  /** The label each rank is declared with; `toString` returns it. */
  function Label(r: Rank): string {
    match r
    case Two => "2"
    case Three => "3"
    case Four => "4"
    case Five => "5"
    case Six => "6"
    case Seven => "7"
    case Eight => "8"
    case Nine => "9"
    case Ten => "10"
    case Jack => "J"
    case Queen => "Q"
    case King => "K"
    case Ace => "A"
  }

  /** `getNext`: the next rank in declaration order, wrapping from Ace to Two. */
  function Next(r: Rank): (n: Rank)
    ensures r == Ace ==> n == Two
    ensures r != Ace ==> Value(n) == Value(r) + 1
  {
    if r == Ace then Two else Values[Ordinal(r) + 1]
  }

  /** The enum's `compareTo`: the difference of the two ordinals. */
  function CompareTo(a: Rank, b: Rank): (c: int)
    ensures c < 0 <==> Value(a) < Value(b)
    ensures c == 0 <==> a == b
    ensures c > 0 <==> Value(a) > Value(b)
  {
    Ordinal(a) - Ordinal(b)
  }

  /** The value-to-rank table the static initialiser fills: one entry `Value(r) := r` per rank. */
  const ValueMap: map<int, Rank> :=
    map[2 := Two, 3 := Three, 4 := Four, 5 := Five, 6 := Six, 7 := Seven, 8 := Eight,
        9 := Nine, 10 := Ten, 11 := Jack, 12 := Queen, 13 := King, 14 := Ace]

  /** The label-to-rank table the static initialiser fills: one entry per rank, keyed by its upper-cased label. */
  const NameMap: map<string, Rank> :=
    map["2" := Two, "3" := Three, "4" := Four, "5" := Five, "6" := Six, "7" := Seven, "8" := Eight,
        "9" := Nine, "10" := Ten, "J" := Jack, "Q" := Queen, "K" := King, "A" := Ace]

  /** `fromValue`: the rank declared with value `v`; None for null or an undeclared value. */
  function FromValue(v: Option<int>): (r: Option<Rank>)
    ensures r.Some? <==> v.Some? && MinValue <= v.value <= MaxValue
    ensures r.Some? ==> Value(r.value) == v.value
  {
    if v.Some? && v.value in ValueMap then Some(ValueMap[v.value]) else None
  }

  /** `fromString`: the rank whose label matches `s` ignoring case; None for null or an unknown label. */
  function FromString(s: Option<string>): (r: Option<Rank>)
    ensures r.Some? ==> s.Some? && Text.ToUpper(s.value) == Label(r.value)
    ensures forall q :: s.Some? && Text.ToUpper(s.value) == Label(q) ==> r == Some(q)
  {
    if s.Some? && Text.ToUpper(s.value) in NameMap then Some(NameMap[Text.ToUpper(s.value)]) else None
  }

  /** The value table holds exactly one entry per rank, the one the static initialiser puts there. */
  lemma ValueMapHoldsEveryRank()
    ensures forall r :: Value(r) in ValueMap && ValueMap[Value(r)] == r
    ensures forall v :: v in ValueMap ==> Value(ValueMap[v]) == v
  {
  }

  /** The label table holds exactly one entry per rank, keyed by its upper-cased label. */
  lemma NameMapHoldsEveryRank()
    ensures forall r :: Text.ToUpper(Label(r)) in NameMap && NameMap[Text.ToUpper(Label(r))] == r
    ensures forall k :: k in NameMap ==> Label(NameMap[k]) == k
  {
    forall r ensures Text.ToUpper(Label(r)) == Label(r) {
      Text.UpperFixesUpper(Label(r));
    }
  }

  lemma FromValueRoundTrip(r: Rank)
    ensures FromValue(Some(Value(r))) == Some(r)
  {
  }

  lemma FromStringRoundTrip(r: Rank)
    ensures FromString(Some(Label(r))) == Some(r)
  {
    Text.UpperFixesUpper(Label(r));
  }

  /** Looking a label up ignores the case of its letters. */
  lemma FromStringIgnoresCase(s: string)
    ensures FromString(Some(s)) == FromString(Some(Text.ToUpper(s)))
  {
    Text.ToUpperIdempotent(s);
  }

  /** MIN_VALUE and MAX_VALUE are the least and the greatest value of any rank. */
  lemma ValueBounds()
    ensures forall r :: MinValue <= Value(r) <= MaxValue
    ensures Value(Two) == MinValue && Value(Ace) == MaxValue
  {
  }

  /** A rank's value is its ordinal plus two: the declaration order is the value order, and a value names one rank. */
  lemma ValueIsOrdinalPlusTwo(r: Rank)
    ensures Value(r) == Ordinal(r) + 2
  {
  }

  /** `values()[n]` has ordinal `n`. */
  lemma OrdinalOfValues(n: int)
    requires 0 <= n < |Values|
    ensures Ordinal(Values[n]) == n
  {
  }

  /** Only Ten has a two-character label. */
  lemma LabelLength(r: Rank)
    ensures |Label(r)| == if r == Ten then 2 else 1
  {
  }
}
