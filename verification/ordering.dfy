/**
 The catalogue's sort keys and the comparator each one selects. A comparator
 returns a negative number when its first argument sorts first, zero when the
 two share a sort position and a positive number otherwise.
 */
module Ordering {

  import opened Bikes
  import Text

  /** The seven orderings the sort selector offers. */
  datatype SortOrder = ByName | PriceLow | PriceHigh | YearNew | YearOld | KmLow | KmHigh

  /** The comparator switch: six keys are recognised exactly, and every other
      string, "name" included, falls back to name order. */
  function OrderFor(sortBy: string): (o: SortOrder)
    ensures o == PriceLow <==> sortBy == "price-low"
    ensures o == PriceHigh <==> sortBy == "price-high"
    ensures o == YearNew <==> sortBy == "year-new"
    ensures o == YearOld <==> sortBy == "year-old"
    ensures o == KmLow <==> sortBy == "km-low"
    ensures o == KmHigh <==> sortBy == "km-high"
    ensures o == ByName <==> sortBy !in ["price-low", "price-high", "year-new", "year-old", "km-low", "km-high"]
  {
    if sortBy == "price-low" then PriceLow
    else if sortBy == "price-high" then PriceHigh
    else if sortBy == "year-new" then YearNew
    else if sortBy == "year-old" then YearOld
    else if sortBy == "km-low" then KmLow
    else if sortBy == "km-high" then KmHigh
    else ByName
  }

  /** The two bikes agree on the field an ordering sorts by. */
  ghost predicate SameField(o: SortOrder, a: Bike, b: Bike) {
    match o
    case PriceLow | PriceHigh => a.price == b.price
    case YearNew | YearOld => a.year == b.year
    case KmLow | KmHigh => a.kmDriven == b.kmDriven
    case ByName => a.name == b.name
  }

  /** The comparator for an ordering, returning the field difference for the
      numeric keys and the name comparison otherwise. Two bikes tie exactly
      when they agree on the sorted field. */
  function Compare(o: SortOrder, a: Bike, b: Bike): (c: int)
    ensures c == 0 <==> SameField(o, a, b)
  {
    match o
    case PriceLow => a.price - b.price
    case PriceHigh => b.price - a.price
    case YearNew => b.year - a.year
    case YearOld => a.year - b.year
    case KmLow => a.kmDriven - b.kmDriven
    case KmHigh => b.kmDriven - a.kmDriven
    case ByName => Text.CompareText(a.name, b.name)
  }

  /** What each ordering means, stated on the fields themselves: `a` may be
      listed before `b`. */
  ghost predicate InOrder(o: SortOrder, a: Bike, b: Bike) {
    match o
    case PriceLow => a.price <= b.price
    case PriceHigh => a.price >= b.price
    case YearNew => a.year >= b.year
    case YearOld => a.year <= b.year
    case KmLow => a.kmDriven <= b.kmDriven
    case KmHigh => a.kmDriven >= b.kmDriven
    case ByName => !Text.LexLess(b.name, a.name)
  }

  /** A non-positive comparison means exactly that the pair is in order. */
  lemma CompareMeaning(o: SortOrder, a: Bike, b: Bike)
    ensures Compare(o, a, b) <= 0 <==> InOrder(o, a, b)
  {
    if o == ByName {
      Text.CompareTextFlip(a.name, b.name);
      Text.CompareTextLess(b.name, a.name);
    }
  }

  /** Swapping the arguments negates the comparison. */
  lemma CompareFlip(o: SortOrder, a: Bike, b: Bike)
    ensures Compare(o, a, b) == -Compare(o, b, a)
  {
    if o == ByName {
      Text.CompareTextFlip(a.name, b.name);
    }
  }

  /** "Sorts no later than" is transitive for every ordering. */
  lemma CompareTrans(o: SortOrder, a: Bike, b: Bike, c: Bike)
    requires Compare(o, a, b) <= 0 && Compare(o, b, c) <= 0
    ensures Compare(o, a, c) <= 0
  {
    if o == ByName {
      Text.CompareTextTrans(a.name, b.name, c.name);
    }
  }

  /** Sharing a sort position is transitive: comparing equal to a common bike
      makes two bikes compare equal. */
  lemma SameKeyTrans(o: SortOrder, a: Bike, b: Bike, c: Bike)
    requires Compare(o, a, b) == 0 && Compare(o, b, c) == 0
    ensures Compare(o, a, c) == 0
  {
    CompareFlip(o, a, b);
    CompareFlip(o, b, c);
    CompareTrans(o, a, b, c);
    CompareTrans(o, c, b, a);
    CompareFlip(o, a, c);
  }

  /** Every adjacent pair is in comparator order. */
  ghost predicate Sorted(o: SortOrder, s: seq<Bike>) {
    forall i :: 0 <= i < |s| - 1 ==> Compare(o, s[i], s[i + 1]) <= 0
  }

  /** The bikes of `s` that share `x`'s sort position, in their order in `s`. */
  function SameKey(o: SortOrder, x: Bike, s: seq<Bike>): seq<Bike>
    decreases |s|
  {
    if s == [] then []
    else (if Compare(o, x, s[0]) == 0 then [s[0]] else []) + SameKey(o, x, s[1..])
  }
}
