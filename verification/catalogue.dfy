/**
 The catalogue query: keep the bikes that pass the search, brand and price
 tests, then order them by the selected sort key.
 */
module Catalogue {

  import opened Bikes
  import opened Ordering
  import Sorting
  import Text

  /** An inclusive price interval; the catalogue stores it as a two-element
      array whose first element is the lower bound. */
  datatype PriceRange = PriceRange(low: int, high: int)

  /** The page's filter and sort state. An empty `filterBrand` stands for
      "All Brands". */
  datatype Criteria = Criteria(searchTerm: string, sortBy: string, filterBrand: string, priceRange: PriceRange)

  /** The state the page opens with: name order, and every bike priced
      0 to 5000000 passes. */
  function Initial(): (c: Criteria)
    ensures OrderFor(c.sortBy) == ByName
    ensures forall b :: Matches(c, b) <==> 0 <= b.price <= 5000000
  {
    Criteria("", "name", "", PriceRange(0, 5000000))
  }

  /** Case-insensitive substring test of the search term against the name. */
  predicate NameMatches(c: Criteria, b: Bike) {
    Text.Contains(Text.Lower(b.name), Text.Lower(c.searchTerm))
  }

  /** The empty brand lets every bike through; otherwise brands must be equal. */
  predicate BrandMatches(c: Criteria, b: Bike) {
    c.filterBrand == "" || b.brand == c.filterBrand
  }

  /** Both bounds of the price range are inclusive. */
  predicate PriceMatches(c: Criteria, b: Bike) {
    c.priceRange.low <= b.price && b.price <= c.priceRange.high
  }

  /** A bike is listed only when all three tests pass. No bike passes a
      range whose bounds are crossed, and with an empty term and no brand
      chosen only the price decides. */
  function Matches(c: Criteria, b: Bike): (r: bool)
    ensures r ==> c.priceRange.low <= c.priceRange.high
    ensures c.searchTerm == "" && c.filterBrand == "" ==> (r <==> c.priceRange.low <= b.price <= c.priceRange.high)
  {
    Text.ContainsEmpty(Text.Lower(b.name));
    NameMatches(c, b) && BrandMatches(c, b) && PriceMatches(c, b)
  }

  /** The filter step: the matching bikes, in input order. */
  function FilterBikes(c: Criteria, s: seq<Bike>): (r: seq<Bike>)
    ensures |r| <= |s|
    ensures forall i :: 0 <= i < |r| ==> Matches(c, r[i])
    decreases |s|
  {
    if s == [] then []
    else (if Matches(c, s[0]) then [s[0]] else []) + FilterBikes(c, s[1..])
  }

  /** Filtering a sequence decides its head, then filters its tail. */
  lemma FilterCons(c: Criteria, x: Bike, s: seq<Bike>)
    ensures FilterBikes(c, [x] + s) == (if Matches(c, x) then [x] else []) + FilterBikes(c, s)
  {
    assert ([x] + s)[1..] == s;
  }

  /** The filter keeps each matching bike as often as it occurs, and drops
      every other bike. */
  lemma {:induction false} FilterCount(c: Criteria, s: seq<Bike>)
    ensures forall b :: multiset(FilterBikes(c, s))[b] == if Matches(c, b) then multiset(s)[b] else 0
    decreases |s|
  {
    if s != [] {
      FilterCount(c, s[1..]);
      assert s == [s[0]] + s[1..];
    }
  }

  /** The displayed list: the filtered bikes sorted by the selected comparator.
      Every listed bike passes the three tests, the list is in comparator
      order, and it is never longer than the input (`QueryCount` states how
      often each bike is listed). */
  function Query(bikes: seq<Bike>, c: Criteria): (r: seq<Bike>)
    ensures Sorted(OrderFor(c.sortBy), r)
    ensures forall i :: 0 <= i < |r| ==> Matches(c, r[i])
    ensures |r| <= |bikes|
  {
    var f := FilterBikes(c, bikes);
    Sorting.SortSorted(OrderFor(c.sortBy), f);
    Sorting.SortPermutes(OrderFor(c.sortBy), f);
    var r := Sorting.Sort(OrderFor(c.sortBy), f);
    assert forall i :: 0 <= i < |r| ==> r[i] in multiset(f);
    r
  }

  /** Each matching input bike is listed exactly as often as it occurs in the
      input, and nothing else is listed. */
  lemma QueryCount(bikes: seq<Bike>, c: Criteria)
    ensures forall b :: multiset(Query(bikes, c))[b] == if Matches(c, b) then multiset(bikes)[b] else 0
  {
    FilterCount(c, bikes);
    Sorting.SortPermutes(OrderFor(c.sortBy), FilterBikes(c, bikes));
  }

  /** A bike is listed exactly when it is in the input and passes every test. */
  lemma QueryMembership(bikes: seq<Bike>, c: Criteria, b: Bike)
    ensures b in Query(bikes, c) <==> b in bikes && NameMatches(c, b) && BrandMatches(c, b) && PriceMatches(c, b)
  {
    var r := Query(bikes, c);
    QueryCount(bikes, c);
    assert b in r <==> multiset(r)[b] > 0;
    assert b in bikes <==> multiset(bikes)[b] > 0;
  }

  /** The sort key decides the order of the listing, on the fields themselves. */
  lemma QuerySortedByKey(bikes: seq<Bike>, c: Criteria, i: int)
    requires 0 <= i < |Query(bikes, c)| - 1
    ensures var r := Query(bikes, c);
      && (c.sortBy == "price-low" ==> r[i].price <= r[i + 1].price)
      && (c.sortBy == "price-high" ==> r[i].price >= r[i + 1].price)
      && (c.sortBy == "year-new" ==> r[i].year >= r[i + 1].year)
      && (c.sortBy == "year-old" ==> r[i].year <= r[i + 1].year)
      && (c.sortBy == "km-low" ==> r[i].kmDriven <= r[i + 1].kmDriven)
      && (c.sortBy == "km-high" ==> r[i].kmDriven >= r[i + 1].kmDriven)
      && (OrderFor(c.sortBy) == ByName ==> !Text.LexLess(r[i + 1].name, r[i].name))
  {
    var r := Query(bikes, c);
    CompareMeaning(OrderFor(c.sortBy), r[i], r[i + 1]);
  }

  /** Filtering commutes with picking out one sort position's run. */
  lemma {:induction false} FilterSameKey(o: SortOrder, x: Bike, c: Criteria, s: seq<Bike>)
    ensures SameKey(o, x, FilterBikes(c, s)) == FilterBikes(c, SameKey(o, x, s))
    decreases |s|
  {
    if s != [] {
      FilterSameKey(o, x, c, s[1..]);
      var head: seq<Bike> := if Matches(c, s[0]) then [s[0]] else [];
      Sorting.SameKeyCons(o, x, s[0], []);
      assert FilterBikes(c, s) == head + FilterBikes(c, s[1..]);
      SameKeyAppend(o, x, head, FilterBikes(c, s[1..]));
      var run: seq<Bike> := if Compare(o, x, s[0]) == 0 then [s[0]] else [];
      assert SameKey(o, x, s) == run + SameKey(o, x, s[1..]);
      FilterAppend(c, run, SameKey(o, x, s[1..]));
    }
  }

  lemma {:induction false} SameKeyAppend(o: SortOrder, x: Bike, a: seq<Bike>, b: seq<Bike>)
    ensures SameKey(o, x, a + b) == SameKey(o, x, a) + SameKey(o, x, b)
    decreases |a|
  {
    if a != [] {
      SameKeyAppend(o, x, a[1..], b);
      assert (a + b)[1..] == a[1..] + b;
    } else {
      assert a + b == b;
    }
  }

  /** The filter distributes over concatenation. */
  lemma {:induction false} FilterAppend(c: Criteria, a: seq<Bike>, b: seq<Bike>)
    ensures FilterBikes(c, a + b) == FilterBikes(c, a) + FilterBikes(c, b)
    decreases |a|
  {
    if a != [] {
      var head: seq<Bike> := if Matches(c, a[0]) then [a[0]] else [];
      assert FilterBikes(c, a + b) == head + FilterBikes(c, a[1..] + b) by {
        assert (a + b)[1..] == a[1..] + b;
      }
      FilterAppend(c, a[1..], b);
    } else {
      assert a + b == b;
    }
  }

  /** Stability: the listed bikes that share any one sort position are the
      matching input bikes of that position, in input order. */
  lemma QueryStable(bikes: seq<Bike>, c: Criteria, x: Bike)
    ensures SameKey(OrderFor(c.sortBy), x, Query(bikes, c))
         == FilterBikes(c, SameKey(OrderFor(c.sortBy), x, bikes))
  {
    var o := OrderFor(c.sortBy);
    Sorting.SortStable(o, x, FilterBikes(c, bikes));
    FilterSameKey(o, x, c, bikes);
  }

  /** The listing is fully determined by its contract: any list that is
      sorted, holds exactly the matching bikes and keeps each sort position's
      bikes in input order is the listing. */
  lemma QueryUnique(bikes: seq<Bike>, c: Criteria, r: seq<Bike>)
    requires Sorted(OrderFor(c.sortBy), r)
    requires forall b :: multiset(r)[b] == if Matches(c, b) then multiset(bikes)[b] else 0
    requires forall x ::
      SameKey(OrderFor(c.sortBy), x, r) == FilterBikes(c, SameKey(OrderFor(c.sortBy), x, bikes))
    ensures r == Query(bikes, c)
  {
    var o := OrderFor(c.sortBy);
    var f := FilterBikes(c, bikes);
    FilterCount(c, bikes);
    assert multiset(r) == multiset(f);
    forall x
      ensures SameKey(o, x, r) == SameKey(o, x, f)
    {
      FilterSameKey(o, x, c, bikes);
    }
    Sorting.SortUnique(o, f, r);
  }

  /** An empty search term, the empty brand and a range covering every price
      keep every bike, each as often as it occurs. */
  lemma QueryNeutral(bikes: seq<Bike>, c: Criteria)
    requires c.searchTerm == "" && c.filterBrand == ""
    requires forall i :: 0 <= i < |bikes| ==> c.priceRange.low <= bikes[i].price <= c.priceRange.high
    ensures multiset(Query(bikes, c)) == multiset(bikes)
    ensures |Query(bikes, c)| == |bikes|
  {
    var r := Query(bikes, c);
    QueryCount(bikes, c);
    forall b | b in bikes
      ensures Matches(c, b)
    {
      Text.ContainsEmpty(Text.Lower(b.name));
      assert Text.Lower(c.searchTerm) == "";
    }
    assert multiset(r) == multiset(bikes);
    assert |r| == |multiset(r)| == |multiset(bikes)| == |bikes|;
  }

  /** A range whose lower bound exceeds its upper bound lists nothing. */
  lemma QueryEmptyRange(bikes: seq<Bike>, c: Criteria)
    requires c.priceRange.low > c.priceRange.high
    ensures Query(bikes, c) == []
  {
  }

  /** The search is case-insensitive: lower-casing the term changes nothing. */
  lemma QueryCaseInsensitive(bikes: seq<Bike>, c: Criteria)
    ensures Query(bikes, c.(searchTerm := Text.Lower(c.searchTerm))) == Query(bikes, c)
  {
    var c' := c.(searchTerm := Text.Lower(c.searchTerm));
    Text.LowerIdempotent(c.searchTerm);
    FilterAgree(c', c, bikes);
  }

  lemma {:induction false} FilterAgree(c: Criteria, d: Criteria, s: seq<Bike>)
    requires forall b :: Matches(c, b) == Matches(d, b)
    ensures FilterBikes(c, s) == FilterBikes(d, s)
    decreases |s|
  {
    if s != [] {
      FilterAgree(c, d, s[1..]);
    }
  }

  lemma {:induction false} FilterAllMatching(c: Criteria, s: seq<Bike>)
    requires forall i :: 0 <= i < |s| ==> Matches(c, s[i])
    ensures FilterBikes(c, s) == s
    decreases |s|
  {
    if s != [] {
      FilterAllMatching(c, s[1..]);
      assert s == [s[0]] + s[1..];
    }
  }

  /** Running the query again on its own result changes nothing. */
  lemma QueryIdempotent(bikes: seq<Bike>, c: Criteria)
    ensures Query(Query(bikes, c), c) == Query(bikes, c)
  {
    var r := Query(bikes, c);
    FilterAllMatching(c, r);
    Sorting.SortOfSorted(OrderFor(c.sortBy), r);
  }

  /** Querying two parts of a collection lists, together, exactly
      the bikes the query over the whole collection lists. */
  lemma QueryPartition(a: seq<Bike>, b: seq<Bike>, c: Criteria)
    ensures multiset(Query(a + b, c)) == multiset(Query(a, c)) + multiset(Query(b, c))
  {
    var o := OrderFor(c.sortBy);
    Sorting.SortPermutes(o, FilterBikes(c, a + b));
    Sorting.SortPermutes(o, FilterBikes(c, a));
    Sorting.SortPermutes(o, FilterBikes(c, b));
    FilterAppend(c, a, b);
  }
}
