/**
 The catalogue page's inputs that change the criteria: the two price boxes
 and the "Clear Filters" buttons.

 A price box's text goes through `parseInt(text) || fallback`: the parse
 either yields an integer or fails (NaN), and `||` replaces every falsy
 value, NaN and 0 alike, by the fallback.
 */
module Controls {

  import opened Wrappers
  import opened Bikes
  import opened Ordering
  import opened Catalogue
  import Text

  /** The fallback the upper price box uses, and the upper bound the clear
      buttons restore. */
  const MaxFallback: int := 50000

  /** The value `parseInt(text) || fallback` yields for a parse outcome. */
  function OrFallback(parsed: Option<int>, fallback: int): (v: int)
    ensures parsed.Some? && parsed.value != 0 ==> v == parsed.value
    ensures parsed.None? || parsed.value == 0 ==> v == fallback
  {
    match parsed
    case Some(n) => if n != 0 then n else fallback
    case None => fallback
  }

  /** Typing in the lower price box: an unparsable or zero entry gives 0, and
      the upper bound is untouched. */
  function SetMinPrice(range: PriceRange, parsed: Option<int>): (r: PriceRange)
    ensures r.high == range.high
    ensures parsed.None? ==> r.low == 0
    ensures parsed.Some? ==> r.low == parsed.value
  {
    PriceRange(OrFallback(parsed, 0), range.high)
  }

  /** Typing in the upper price box: an unparsable entry and 0 alike give
      50000, so the upper bound can never be set to 0, and the lower bound is
      untouched. */
  function SetMaxPrice(range: PriceRange, parsed: Option<int>): (r: PriceRange)
    ensures r.low == range.low
    ensures r.high != 0
    ensures parsed.Some? && parsed.value != 0 ==> r.high == parsed.value
    ensures parsed.None? || parsed.value == 0 ==> r.high == MaxFallback
  {
    PriceRange(range.low, OrFallback(parsed, MaxFallback))
  }

  /** The lower box shows the lower bound; reading back the shown value leaves
      the range as it was. */
  lemma MinPriceEcho(range: PriceRange)
    ensures SetMinPrice(range, Some(range.low)) == range
  {
  }

  /** The upper box shows the upper bound; reading it back is a no-op exactly
      when that bound is not 0. */
  lemma MaxPriceEcho(range: PriceRange)
    ensures SetMaxPrice(range, Some(range.high)) == range <==> range.high != 0
  {
  }

  /** Both "Clear Filters" buttons, as written: they empty the search term and
      brand, restore name order and set the price range to [0, 50000], which
      is not the range the page opens with. */
  function ClearFilters(): (c: Criteria)
    ensures OrderFor(c.sortBy) == ByName
    ensures forall b :: Matches(c, b) <==> 0 <= b.price <= MaxFallback
  {
    Criteria("", "name", "", PriceRange(0, MaxFallback))
  }

  /** After clearing, the search and brand tests pass for every bike and the
      listing holds exactly the input bikes priced 0 to 50000, in name order. */
  lemma ClearFiltersListsOnlyCheap(bikes: seq<Bike>, b: Bike)
    ensures (b in Query(bikes, ClearFilters()) <==> b in bikes && 0 <= b.price <= MaxFallback)
    ensures Sorted(ByName, Query(bikes, ClearFilters()))
  {
    QueryMembership(bikes, ClearFilters(), b);
    Text.ContainsEmpty(Text.Lower(b.name));
  }

  /** When every listing costs more than 50000, clearing the filters lists
      nothing. */
  lemma ClearFiltersHidesAll(bikes: seq<Bike>)
    requires forall i :: 0 <= i < |bikes| ==> bikes[i].price > 50000
    ensures Query(bikes, ClearFilters()) == []
  {
    var c := ClearFilters();
    var r := Query(bikes, c);
    QueryCount(bikes, c);
    forall b
      ensures multiset(r)[b] == 0
    {
      if Matches(c, b) {
        assert b !in bikes;
      }
    }
    assert multiset(r) == multiset{};
    assert |r| == |multiset(r)|;
  }

  /** The catalogue's own listings are all priced at least 191000, so
      clearing the filters lists none of them. */
  lemma ClearFiltersHidesFixture()
    ensures Query(Fixture, ClearFilters()) == []
  {
    FixtureFacts();
    ClearFiltersHidesAll(Fixture);
  }

  /** What clearing evidently intends: the criteria the page opens with. */
  function ResetFilters(): Criteria {
    Initial()
  }

  /** After a reset every listing whose price lies in [0, 5000000] is shown
      again, each as often as it occurs. */
  lemma ResetFiltersShowsAll(bikes: seq<Bike>)
    requires forall i :: 0 <= i < |bikes| ==> 0 <= bikes[i].price <= 5000000
    ensures multiset(Query(bikes, ResetFilters())) == multiset(bikes)
    ensures |Query(bikes, ResetFilters())| == |bikes|
  {
    QueryNeutral(bikes, ResetFilters());
  }

  /** In particular all seven of the catalogue's own listings are shown. */
  lemma ResetFiltersShowsFixture()
    ensures multiset(Query(Fixture, ResetFilters())) == multiset(Fixture)
    ensures |Query(Fixture, ResetFilters())| == 7
  {
    FixtureFacts();
    ResetFiltersShowsAll(Fixture);
  }
}
