/**
 The catalogue query on the catalogue's own seven listings.
 */
module Scenarios {

  import opened Bikes
  import opened Ordering
  import opened Catalogue
  import Sorting
  import Text

  /** With an empty search term, the empty brand and a range covering every
      fixture price, the filter keeps the fixture as it is. */
  lemma FilterKeepsFixture(c: Criteria)
    requires c.searchTerm == "" && c.filterBrand == ""
    requires c.priceRange.low <= 191000 && 2999000 <= c.priceRange.high
    ensures FilterBikes(c, Fixture) == Fixture
  {
    FixtureFacts();
    forall i | 0 <= i < |Fixture|
      ensures Matches(c, Fixture[i])
    {
      Text.ContainsEmpty(Text.Lower(Fixture[i].name));
      assert Text.Lower(c.searchTerm) == "";
    }
    FilterAllMatching(c, Fixture);
  }

  /** The opening criteria list all seven listings in name order. */
  lemma InitialListsAllByName()
    ensures Query(Fixture, Initial()) == [GS310, S1000RR, Panigale, StreetRod, Z900, Himalayan, StreetTriple]
  {
    FilterKeepsFixture(Initial());
    FixtureByName();
  }

  /** Sorting the last four listings by name. */
  lemma LastFourByName()
    ensures Sorting.Sort(ByName, [Panigale, StreetRod, Himalayan, GS310])
      == [GS310, Panigale, StreetRod, Himalayan]
  {
    var o := ByName;
    var t1 := [GS310];
    var t2 := [Himalayan] + t1;
    var t3 := [StreetRod] + t2;
    assert Sorting.Sort(o, t1) == [GS310] by {
      Sorting.SortCons(o, GS310, [], [], [GS310]);
      assert [GS310] + [] == t1;
    }
    assert Sorting.Sort(o, t2) == [GS310, Himalayan] by {
      Sorting.SortCons(o, Himalayan, t1, t1, [GS310, Himalayan]);
    }
    assert Sorting.Sort(o, t3) == [GS310, StreetRod, Himalayan] by {
      Sorting.SortCons(o, StreetRod, t2, [GS310, Himalayan], [GS310, StreetRod, Himalayan]);
    }
    Sorting.SortCons(o, Panigale, t3,
      [GS310, StreetRod, Himalayan], [GS310, Panigale, StreetRod, Himalayan]);
    assert [Panigale] + t3 == [Panigale, StreetRod, Himalayan, GS310];
  }

  /** The Triumph, whose name sorts last, passes every listing. */
  lemma InsertStreetTriple()
    ensures Sorting.Insert(ByName, StreetTriple, [GS310, S1000RR, Panigale, StreetRod, Himalayan])
      == [GS310, S1000RR, Panigale, StreetRod, Himalayan, StreetTriple]
  {
    var o := ByName;
    Sorting.InsertPast(o, StreetTriple, Himalayan, []);
    Sorting.InsertPast(o, StreetTriple, StreetRod, [Himalayan]);
    Sorting.InsertPast(o, StreetTriple, Panigale, [StreetRod, Himalayan]);
    Sorting.InsertPast(o, StreetTriple, S1000RR, [Panigale, StreetRod, Himalayan]);
    Sorting.InsertPast(o, StreetTriple, GS310, [S1000RR, Panigale, StreetRod, Himalayan]);
  }

  /** The Kawasaki goes in front of the Royal Enfield. */
  lemma InsertZ900()
    ensures Sorting.Insert(ByName, Z900, [GS310, S1000RR, Panigale, StreetRod, Himalayan, StreetTriple])
      == [GS310, S1000RR, Panigale, StreetRod, Z900, Himalayan, StreetTriple]
  {
    var o := ByName;
    Sorting.InsertInFront(o, Z900, [Himalayan, StreetTriple]);
    Sorting.InsertPast(o, Z900, StreetRod, [Himalayan, StreetTriple]);
    Sorting.InsertPast(o, Z900, Panigale, [StreetRod, Himalayan, StreetTriple]);
    Sorting.InsertPast(o, Z900, S1000RR, [Panigale, StreetRod, Himalayan, StreetTriple]);
    Sorting.InsertPast(o, Z900, GS310, [S1000RR, Panigale, StreetRod, Himalayan, StreetTriple]);
  }

  /** Sorting the fixture by name. */
  lemma FixtureByName()
    ensures Sorting.Sort(ByName, Fixture) == [GS310, S1000RR, Panigale, StreetRod, Z900, Himalayan, StreetTriple]
  {
    var o := ByName;
    var t4 := [Panigale, StreetRod, Himalayan, GS310];
    var t5 := [S1000RR] + t4;
    var t6 := [StreetTriple] + t5;
    LastFourByName();
    Sorting.SortCons(o, S1000RR, t4,
      [GS310, Panigale, StreetRod, Himalayan], [GS310, S1000RR, Panigale, StreetRod, Himalayan]);
    InsertStreetTriple();
    Sorting.SortCons(o, StreetTriple, t5,
      [GS310, S1000RR, Panigale, StreetRod, Himalayan],
      [GS310, S1000RR, Panigale, StreetRod, Himalayan, StreetTriple]);
    InsertZ900();
    Sorting.SortCons(o, Z900, t6,
      [GS310, S1000RR, Panigale, StreetRod, Himalayan, StreetTriple],
      [GS310, S1000RR, Panigale, StreetRod, Z900, Himalayan, StreetTriple]);
    assert [Z900] + t6 == Fixture;
  }
  /** The opening criteria with "price-low" list all seven listings from the
      cheapest to the dearest. */
  lemma PriceLowListsAllAscending()
    ensures Query(Fixture, Initial().(sortBy := "price-low"))
      == [Himalayan, GS310, StreetRod, Z900, StreetTriple, S1000RR, Panigale]
  {
    FilterKeepsFixture(Initial().(sortBy := "price-low"));
    FixtureByPrice();
  }

  /** Sorting the last five listings by ascending price. */
  lemma LastFiveByPrice()
    ensures Sorting.Sort(PriceLow, [S1000RR, Panigale, StreetRod, Himalayan, GS310])
      == [Himalayan, GS310, StreetRod, S1000RR, Panigale]
  {
    var o := PriceLow;
    var t1 := [GS310];
    var t2 := [Himalayan] + t1;
    var t3 := [StreetRod] + t2;
    var t4 := [Panigale] + t3;
    assert Sorting.Sort(o, t1) == t1 by {
      Sorting.SortCons(o, GS310, [], [], [GS310]);
      assert [GS310] + [] == t1;
    }
    assert Sorting.Sort(o, t2) == [Himalayan, GS310] by {
      Sorting.InsertInFront(o, Himalayan, t1);
      Sorting.SortCons(o, Himalayan, t1, t1, [Himalayan, GS310]);
    }
    assert Sorting.Sort(o, t3) == [Himalayan, GS310, StreetRod] by {
      Sorting.InsertPast(o, StreetRod, GS310, []);
      Sorting.InsertPast(o, StreetRod, Himalayan, [GS310]);
      Sorting.SortCons(o, StreetRod, t2, [Himalayan, GS310], [Himalayan, GS310, StreetRod]);
    }
    assert Sorting.Sort(o, t4) == [Himalayan, GS310, StreetRod, Panigale] by {
      Sorting.InsertPast(o, Panigale, StreetRod, []);
      Sorting.InsertPast(o, Panigale, GS310, [StreetRod]);
      Sorting.InsertPast(o, Panigale, Himalayan, [GS310, StreetRod]);
      Sorting.SortCons(o, Panigale, t3, [Himalayan, GS310, StreetRod],
        [Himalayan, GS310, StreetRod, Panigale]);
    }
    Sorting.InsertInFront(o, S1000RR, [Panigale]);
    Sorting.InsertPast(o, S1000RR, StreetRod, [Panigale]);
    Sorting.InsertPast(o, S1000RR, GS310, [StreetRod, Panigale]);
    Sorting.InsertPast(o, S1000RR, Himalayan, [GS310, StreetRod, Panigale]);
    Sorting.SortCons(o, S1000RR, t4, [Himalayan, GS310, StreetRod, Panigale],
      [Himalayan, GS310, StreetRod, S1000RR, Panigale]);
    assert [S1000RR] + t4 == [S1000RR, Panigale, StreetRod, Himalayan, GS310];
  }

  /** The Triumph goes in front of the BMW superbike. */
  lemma InsertStreetTripleByPrice()
    ensures Sorting.Insert(PriceLow, StreetTriple, [Himalayan, GS310, StreetRod, S1000RR, Panigale])
      == [Himalayan, GS310, StreetRod, StreetTriple, S1000RR, Panigale]
  {
    var o := PriceLow;
    Sorting.InsertInFront(o, StreetTriple, [S1000RR, Panigale]);
    Sorting.InsertPast(o, StreetTriple, StreetRod, [S1000RR, Panigale]);
    Sorting.InsertPast(o, StreetTriple, GS310, [StreetRod, S1000RR, Panigale]);
    Sorting.InsertPast(o, StreetTriple, Himalayan, [GS310, StreetRod, S1000RR, Panigale]);
  }

  /** The Kawasaki goes in front of the Triumph. */
  lemma InsertZ900ByPrice()
    ensures Sorting.Insert(PriceLow, Z900, [Himalayan, GS310, StreetRod, StreetTriple, S1000RR, Panigale])
      == [Himalayan, GS310, StreetRod, Z900, StreetTriple, S1000RR, Panigale]
  {
    var o := PriceLow;
    Sorting.InsertInFront(o, Z900, [StreetTriple, S1000RR, Panigale]);
    Sorting.InsertPast(o, Z900, StreetRod, [StreetTriple, S1000RR, Panigale]);
    Sorting.InsertPast(o, Z900, GS310, [StreetRod, StreetTriple, S1000RR, Panigale]);
    Sorting.InsertPast(o, Z900, Himalayan, [GS310, StreetRod, StreetTriple, S1000RR, Panigale]);
  }

  /** Sorting the fixture by ascending price. */
  lemma FixtureByPrice()
    ensures Sorting.Sort(PriceLow, Fixture)
      == [Himalayan, GS310, StreetRod, Z900, StreetTriple, S1000RR, Panigale]
  {
    var o := PriceLow;
    var t5 := [S1000RR, Panigale, StreetRod, Himalayan, GS310];
    var t6 := [StreetTriple] + t5;
    LastFiveByPrice();
    InsertStreetTripleByPrice();
    Sorting.SortCons(o, StreetTriple, t5,
      [Himalayan, GS310, StreetRod, S1000RR, Panigale],
      [Himalayan, GS310, StreetRod, StreetTriple, S1000RR, Panigale]);
    InsertZ900ByPrice();
    Sorting.SortCons(o, Z900, t6,
      [Himalayan, GS310, StreetRod, StreetTriple, S1000RR, Panigale],
      [Himalayan, GS310, StreetRod, Z900, StreetTriple, S1000RR, Panigale]);
    assert [Z900] + t6 == Fixture;
  }

  /** A search term holding a non-letter character misses every name that
      does not hold that character, whatever its case. */
  lemma SearchMissesWithout(c: Criteria, b: Bike, j: int)
    requires 0 <= j < |c.searchTerm| && !('a' <= c.searchTerm[j] <= 'z')
    requires !Text.IsUpper(c.searchTerm[j]) && c.searchTerm[j] !in b.name
    ensures !NameMatches(c, b)
  {
    if NameMatches(c, b) {
      var term := Text.Lower(c.searchTerm);
      assert term[j] == c.searchTerm[j];
      Text.ContainsChars(Text.Lower(b.name), term, j);
      Text.LowerAddsOnlyLetters(b.name, term[j]);
      assert false;
    }
  }

  /** Searching "Z900" in upper case finds the Kawasaki by its lower-case name. */
  lemma SearchFindsZ900(c: Criteria)
    requires c.searchTerm == "Z900"
    ensures NameMatches(c, Z900)
  {
    var name := Text.Lower(Z900.name);
    assert Text.Lower(c.searchTerm) == "z900";
    assert name[9..13] == "z900";
    assert Text.OccursAt(name, "z900", 9);
    Text.ContainsIff(name, "z900");
  }

  /** When exactly one listing passes, the filter yields that listing alone. */
  lemma FilterOnly(c: Criteria, s: seq<Bike>, k: int)
    requires 0 <= k < |s| && Matches(c, s[k])
    requires forall j :: 0 <= j < |s| && j != k ==> !Matches(c, s[j])
    ensures FilterBikes(c, s) == [s[k]]
  {
    var before, after := s[..k], s[k + 1..];
    assert s == before + ([s[k]] + after);
    assert forall j :: 0 <= j < |before| ==> before[j] == s[j];
    assert forall j :: 0 <= j < |after| ==> after[j] == s[k + 1 + j];
    FilterNoneMatching(c, before);
    FilterNoneMatching(c, after);
    FilterCons(c, s[k], after);
    FilterAppend(c, before, [s[k]] + after);
  }

  /** Searching "Z900" with the opening criteria lists only the Kawasaki. */
  lemma SearchZ900ListsKawasaki()
    ensures Query(Fixture, Initial().(searchTerm := "Z900")) == [Z900]
  {
    var c := Initial().(searchTerm := "Z900");
    SearchZ900Filter(c);
    var o := OrderFor(c.sortBy);
    Sorting.SortCons(o, Z900, [], [], [Z900]);
    assert [Z900] + [] == [Z900];
  }

  /** The filter step of the "Z900" search over any range holding the
      Kawasaki's price. */
  lemma SearchZ900Filter(c: Criteria)
    requires c.searchTerm == "Z900" && c.filterBrand == ""
    requires c.priceRange.low <= 952000 <= c.priceRange.high
    ensures FilterBikes(c, Fixture) == [Z900]
  {
    assert Matches(c, Fixture[0]) by {
      SearchFindsZ900(c);
    }
    SearchZ900MissesOthers(c);
    var tail := [Panigale, StreetRod, Himalayan, GS310];
    assert FilterBikes(c, tail) == [] by {
      FilterCons(c, GS310, []);
      assert [GS310] + [] == [GS310];
      FilterCons(c, Himalayan, [GS310]);
      FilterCons(c, StreetRod, [Himalayan, GS310]);
      FilterCons(c, Panigale, [StreetRod, Himalayan, GS310]);
    }
    FilterCons(c, S1000RR, tail);
    FilterCons(c, StreetTriple, [S1000RR] + tail);
    assert [StreetTriple] + ([S1000RR] + tail) == [StreetTriple, S1000RR] + tail;
    FilterCons(c, Z900, [StreetTriple, S1000RR] + tail);
    assert [Z900] + ([StreetTriple, S1000RR] + tail) == Fixture;
  }

  /** No other listing has a '9' in its name, so "Z900" misses them all. */
  lemma SearchZ900MissesOthers(c: Criteria)
    requires c.searchTerm == "Z900"
    ensures !Matches(c, StreetTriple) && !Matches(c, S1000RR) && !Matches(c, Panigale)
    ensures !Matches(c, StreetRod) && !Matches(c, Himalayan) && !Matches(c, GS310)
  {
    assert c.searchTerm[1] == '9';
    NoNineInTriumphOrS1000RR();
    NoNineInDucatiOrHarley();
    NoNineInHimalayanOrGS310();
    SearchMissesWithout(c, StreetTriple, 1);
    SearchMissesWithout(c, S1000RR, 1);
    SearchMissesWithout(c, Panigale, 1);
    SearchMissesWithout(c, StreetRod, 1);
    SearchMissesWithout(c, Himalayan, 1);
    SearchMissesWithout(c, GS310, 1);
  }

  /** A filter that nothing passes yields nothing. */
  lemma {:induction false} FilterNoneMatching(c: Criteria, s: seq<Bike>)
    requires forall k :: 0 <= k < |s| ==> !Matches(c, s[k])
    ensures FilterBikes(c, s) == []
    decreases |s|
  {
    if s != [] {
      FilterCons(c, s[0], s[1..]);
      assert [s[0]] + s[1..] == s;
      FilterNoneMatching(c, s[1..]);
    }
  }

  /** A brand filter turns away every bike of another brand. */
  lemma OtherBrandRejected(c: Criteria, b: Bike)
    requires c.filterBrand != "" && b.brand != c.filterBrand
    ensures !Matches(c, b)
  {
  }

  /** With the empty search term, a bike of the chosen brand inside the range
      is listed. */
  lemma ChosenBrandListed(c: Criteria, b: Bike)
    requires c.searchTerm == "" && b.brand == c.filterBrand
    requires c.priceRange.low <= b.price <= c.priceRange.high
    ensures Matches(c, b)
  {
    assert Text.Lower(c.searchTerm) == "";
    Text.ContainsEmpty(Text.Lower(b.name));
  }

  /** Keeping only the BMWs over a range covering every fixture price leaves
      the two BMWs in catalogue order. */
  lemma FilterBmw(c: Criteria)
    requires c.searchTerm == "" && c.filterBrand == "BMW"
    requires c.priceRange.low <= 191000 && 2999000 <= c.priceRange.high
    ensures FilterBikes(c, Fixture) == [S1000RR, GS310]
  {
    ChosenBrandListed(c, S1000RR);
    ChosenBrandListed(c, GS310);
    OtherBrandRejected(c, Z900);
    OtherBrandRejected(c, StreetTriple);
    OtherBrandRejected(c, Panigale);
    OtherBrandRejected(c, StreetRod);
    OtherBrandRejected(c, Himalayan);
    var tail := [Panigale, StreetRod, Himalayan, GS310];
    assert FilterBikes(c, tail) == [GS310] by {
      FilterCons(c, GS310, []);
      assert [GS310] + [] == [GS310];
      FilterCons(c, Himalayan, [GS310]);
      FilterCons(c, StreetRod, [Himalayan, GS310]);
      FilterCons(c, Panigale, [StreetRod, Himalayan, GS310]);
    }
    FilterCons(c, S1000RR, tail);
    assert FilterBikes(c, [S1000RR] + tail) == [S1000RR, GS310];
    FilterCons(c, StreetTriple, [S1000RR] + tail);
    assert [StreetTriple] + ([S1000RR] + tail) == [StreetTriple, S1000RR] + tail;
    FilterCons(c, Z900, [StreetTriple, S1000RR] + tail);
    assert [Z900] + ([StreetTriple, S1000RR] + tail) == Fixture;
  }

  /** Keeping the BMWs and ordering them newest first lists the superbike
      before the GS 310: both are 2025 models, so input order decides. */
  lemma BmwNewestFirst()
    ensures Query(Fixture, Initial().(filterBrand := "BMW", sortBy := "year-new")) == [S1000RR, GS310]
  {
    var c := Initial().(filterBrand := "BMW", sortBy := "year-new");
    FilterBmw(c);
    var o := OrderFor(c.sortBy);
    assert o == YearNew;
    Sorting.SortCons(o, GS310, [], [], [GS310]);
    assert [GS310] + [] == [GS310];
    Sorting.InsertInFront(o, S1000RR, [GS310]);
    Sorting.SortCons(o, S1000RR, [GS310], [GS310], [S1000RR, GS310]);
  }
}
