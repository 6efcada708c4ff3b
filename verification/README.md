# Catalogue query of the bike marketplace

This project models the catalogue page of the bike marketplace. The page
holds four criteria: a search term, a sort key, a brand and a price range.
From them it derives the list of bikes on show:

- it keeps the bikes whose lower-cased name contains the lower-cased search
  term, whose brand equals the chosen brand (the empty brand means "all
  brands"), and whose price lies inside the range, both bounds included;
- it sorts the kept bikes with one of seven comparators picked by the sort key.

Around the query, the model also covers:

- the brand drop-down, built from the distinct brands of the listings;
- the two price boxes, whose text is coerced with `parseInt(text) || fallback`;
- the "Clear Filters" buttons.

The seven listings of the data file are transcribed as a fixture. Scenario
lemmas compute the page's listing on them.

Modules:

- `Wrappers`: `Option`, the outcome of parsing a price box.
- `Bikes`: the listing record (the fields the query reads) and the fixture.
- `Text`:
  - lower-casing;
  - substring search (`includes`), with a positional reference definition;
  - the name comparison, with a lexicographic reference order.
- `Ordering`: the sort key's comparator, what each comparator means on the
  bikes' fields, and the notion of a sorted list.
- `Sorting`: a stable insertion sort. It is proved to be a sorted, stable
  permutation of its input, and to be the only such list, so any stable
  algorithm gives the same result.
- `Catalogue`: the criteria, the filter and the query, with their properties.
- `Controls`: the price boxes and the "Clear Filters" reset.
- `BrandList`: the brand drop-down, as a loop over the listings.
- `Scenarios`: the query on the fixture.

Assumptions about the host platform:

- `toLowerCase` is modelled as ASCII case folding: 'A'..'Z' become
  'a'..'z' and every other character is unchanged.
- `localeCompare` is modelled as code-point lexicographic order, returning
  -1, 0 or 1. On the fixture's names, which are plain ASCII letters, digits,
  spaces and a hyphen, this gives the order the page shows.
- `Array.prototype.sort` is stable (required since ECMAScript 2019).
  `Sorting.SortUnique` shows that every stable sort with the same comparator
  returns the same list as the insertion sort modelled here.
- The numeric comparators return the difference of the two fields, as the
  page does. Prices, years and distances are integers far below 2^53, so
  JavaScript's doubles hold them and their differences exactly.

The upper price box falls back to 50000 for an unparsable or zero entry,
exactly as the code does. That bound does not cover every listing. The model
keeps this value and does not replace it with a bound that covers every price.

## Model

| member | source | states |
|---|---|---|
| Bikes.FixtureFacts | src/data/bikes.ts:1-142 | the data file holds seven listings with distinct ids; exactly the third and seventh are BMWs; every price lies in [191000, 2999000], and both bounds are attained |
| Text.LowerChar | src/pages/CataloguePage.tsx:19 | lower-casing maps an upper-case ASCII letter to its lower-case letter (code + 32), leaves every other character as it is, and never yields an upper-case letter |
| Text.Lower | src/pages/CataloguePage.tsx:19 | lower-casing keeps the length. Each 'A'..'Z' becomes its lower-case letter (code point + 32) and every other character is kept, so no upper-case letter remains |
| Text.LowerIdempotent | src/pages/CataloguePage.tsx:19 | lower-casing twice is lower-casing once |
| Text.LowerAddsOnlyLetters | src/pages/CataloguePage.tsx:19 | a non-letter character in a lower-cased text was already in the original text |
| Text.ContainsIff | src/pages/CataloguePage.tsx:19 | the substring test holds exactly when the needle occurs at some position of the haystack |
| Text.ContainsChars | src/pages/CataloguePage.tsx:19 | every character of a found needle is a character of the haystack |
| Text.ContainsEmpty | src/pages/CataloguePage.tsx:19 | the empty search term is found in every name |
| Text.CompareText | src/pages/CataloguePage.tsx:39 | the name comparison returns -1, 0 or 1, and returns 0 exactly for equal names |
| Text.CompareTextLess | src/pages/CataloguePage.tsx:39 | the name comparison is negative exactly when the first name is lexicographically smaller than the second |
| Text.CompareTextFlip | src/pages/CataloguePage.tsx:39 | swapping the names negates the comparison |
| Text.CompareTextTrans | src/pages/CataloguePage.tsx:39 | the name order is transitive |
| Ordering.OrderFor | src/pages/CataloguePage.tsx:25-40 | each of the six named keys selects its own comparator; every other key, "name" included, selects name order |
| Ordering.Compare | src/pages/CataloguePage.tsx:26-39 | the comparator returns 0 exactly when the two bikes agree on the field the key sorts by: price, year, distance, or the name for the default |
| Ordering.CompareMeaning | src/pages/CataloguePage.tsx:24-40 | a comparator result of at most 0 means the pair is in the key's order on the fields: ascending price, descending price, descending year, ascending year, ascending distance, descending distance, or the name order |
| Ordering.CompareFlip | src/pages/CataloguePage.tsx:24-41 | every comparator is antisymmetric |
| Ordering.CompareTrans | src/pages/CataloguePage.tsx:24-41 | every comparator is transitive, as a consistent comparator must be |
| Ordering.SameKeyTrans | src/pages/CataloguePage.tsx:24-41 | ties under a comparator are transitive |
| Sorting.Sort | src/pages/CataloguePage.tsx:25 | the sort returns a list as long as its input (contents, order and stability are stated by SortPermutes, SortSorted and SortStable) |
| Sorting.InsertPermutes | src/pages/CataloguePage.tsx:24 | inserting adds exactly the inserted bike |
| Sorting.InsertSorted | src/pages/CataloguePage.tsx:24-41 | inserting into a sorted list keeps it sorted |
| Sorting.InsertSameKey | src/pages/CataloguePage.tsx:24-41 | an inserted bike goes in front of the bikes it ties with |
| Sorting.SortPermutes | src/pages/CataloguePage.tsx:24 | sorting only reorders: every bike appears as often as in the input |
| Sorting.SortSorted | src/pages/CataloguePage.tsx:24-41 | the sorted list is in comparator order |
| Sorting.SortStable | src/pages/CataloguePage.tsx:24-41 | bikes that tie under the comparator keep their input order |
| Sorting.SortOfSorted | src/pages/CataloguePage.tsx:24-41 | sorting a list that is already in order leaves it unchanged |
| Sorting.SortedAllPairs | src/pages/CataloguePage.tsx:24-41 | in a sorted list every earlier bike is in order with every later one, not only with its neighbour |
| Sorting.SortedSameKeysEqual | src/pages/CataloguePage.tsx:24-41 | two sorted lists with the same bikes, and the same order among tied bikes, are equal |
| Sorting.SortUnique | src/pages/CataloguePage.tsx:24-41 | any sorted, stable reordering of the input is exactly the sorted list, so every stable sort gives the same result |
| Catalogue.Initial | src/pages/CataloguePage.tsx:6-9 | the page opens in name order, and a bike passes its tests exactly when its price lies in [0, 5000000] |
| Catalogue.Matches | src/pages/CataloguePage.tsx:18-21 | no bike passes a range whose lower bound exceeds its upper bound. With an empty search term and no brand chosen, a bike passes exactly when its price is in the range |
| Catalogue.FilterBikes | src/pages/CataloguePage.tsx:18-22 | the filter keeps only bikes that pass all three tests and never lengthens the list |
| Catalogue.FilterCount | src/pages/CataloguePage.tsx:18-22 | a passing bike is kept as often as it occurs in the input; a failing bike is dropped |
| Catalogue.FilterAppend | src/pages/CataloguePage.tsx:18-22 | filtering a concatenation filters each part |
| Catalogue.FilterAllMatching | src/pages/CataloguePage.tsx:18-22 | when every bike passes, the filter returns the input unchanged |
| Catalogue.Query | src/pages/CataloguePage.tsx:17-44 | the listing is sorted by the chosen key, every listed bike passes all three tests, and the "Showing N of M" count has N <= M |
| Catalogue.QueryCount | src/pages/CataloguePage.tsx:18-24 | each bike that passes the tests is listed exactly as often as it occurs among the listings; no other bike is listed |
| Catalogue.QueryMembership | src/pages/CataloguePage.tsx:18-22 | a bike is listed if and only if it is in the input and its name, brand and price all pass |
| Catalogue.QuerySortedByKey | src/pages/CataloguePage.tsx:26-39 | adjacent listed bikes follow the key on the fields: ascending price for "price-low", descending price for "price-high", descending year for "year-new", ascending year for "year-old", ascending distance for "km-low", descending distance for "km-high", and name order for any other key |
| Catalogue.QueryStable | src/pages/CataloguePage.tsx:18-41 | the listed bikes tied with any bike are the passing input bikes tied with it, in input order |
| Catalogue.QueryUnique | src/pages/CataloguePage.tsx:17-44 | a list that is sorted, holds exactly the passing bikes and keeps tied bikes in input order is the listing |
| Catalogue.QueryNeutral | src/pages/CataloguePage.tsx:18-21 | an empty term, the empty brand and a range covering every price list every bike, each as often as it occurs |
| Catalogue.QueryEmptyRange | src/pages/CataloguePage.tsx:21 | a range whose lower bound exceeds its upper bound lists nothing, for any input |
| Catalogue.QueryCaseInsensitive | src/pages/CataloguePage.tsx:19 | lower-casing the search term does not change the listing |
| Catalogue.QueryIdempotent | src/pages/CataloguePage.tsx:17-44 | running the query on its own listing gives the same listing |
| Catalogue.QueryPartition | src/pages/CataloguePage.tsx:17-44 | querying two parts of a collection lists, together, exactly the bikes that querying the whole lists |
| Controls.OrFallback | src/pages/CataloguePage.tsx:177 | `parseInt(text) \|\| fallback` keeps a non-zero parsed number and gives the fallback for an unparsable entry or 0 |
| Controls.SetMinPrice | src/pages/CataloguePage.tsx:177 | the lower box sets the lower bound to the parsed number, or to 0 when the entry is unparsable; the upper bound is unchanged |
| Controls.SetMaxPrice | src/pages/CataloguePage.tsx:186 | the upper box sets the upper bound to a non-zero parsed number, or to 50000 when the entry is unparsable or 0; the upper bound is never 0; the lower bound is unchanged |
| Controls.MinPriceEcho | src/pages/CataloguePage.tsx:176-177 | retyping the shown lower bound leaves the range unchanged |
| Controls.MaxPriceEcho | src/pages/CataloguePage.tsx:185-186 | retyping the shown upper bound leaves the range unchanged exactly when that bound is not 0 |
| Controls.ClearFilters | src/pages/CataloguePage.tsx:197-202 | both clear buttons (the second at lines 270-275) restore name order, and afterwards a bike passes exactly when its price lies in [0, 50000] |
| Controls.ClearFiltersListsOnlyCheap | src/pages/CataloguePage.tsx:197-202 | after "Clear Filters" a bike is listed exactly when it is in the input and priced between 0 and 50000, and the listing is in name order |
| Controls.ClearFiltersHidesAll | src/pages/CataloguePage.tsx:270-275 | after "Clear Filters" a collection whose every price exceeds 50000 lists nothing |
| Controls.ClearFiltersHidesFixture | src/pages/CataloguePage.tsx:197-202 | after "Clear Filters" the catalogue's own seven listings all disappear |
| Controls.ResetFiltersShowsAll | src/pages/CataloguePage.tsx:7-10 | a reset to the opening criteria lists every bike priced between 0 and 5000000 |
| Controls.ResetFiltersShowsFixture | src/pages/CataloguePage.tsx:7-10 | a reset to the opening criteria lists all seven catalogue listings |
| BrandList.FirstIndex | src/pages/CataloguePage.tsx:13 | the position found is the first listing with that brand, or the end when there is none |
| BrandList.Brands | src/pages/CataloguePage.tsx:13 | the brand list has no duplicates, holds exactly the brands of the listings, and orders them by first occurrence |
| Scenarios.FilterKeepsFixture | src/pages/CataloguePage.tsx:18-21 | with no term, no brand and a range covering 191000..2999000, the filter keeps the seven listings as they are |
| Scenarios.InitialListsAllByName | src/pages/CataloguePage.tsx:7-44 | the opening page lists all seven bikes: BMW GS 310, BMW S1000RR, Ducati, Harley-Davidson, Kawasaki, Royal Enfield, Triumph |
| Scenarios.PriceLowListsAllAscending | src/pages/CataloguePage.tsx:26-27 | "price-low" lists all seven from the Himalayan (191000) to the Panigale (2999000) |
| Scenarios.SearchMissesWithout | src/pages/CataloguePage.tsx:19 | a search term with a non-letter character that a name lacks never matches that name, whatever the case |
| Scenarios.SearchFindsZ900 | src/pages/CataloguePage.tsx:19 | the search "Z900" matches "Kawasaki Z900" regardless of case |
| Scenarios.SearchZ900ListsKawasaki | src/pages/CataloguePage.tsx:18-22 | searching "Z900" lists the Kawasaki alone |
| Scenarios.FilterOnly | src/pages/CataloguePage.tsx:18-22 | when exactly one bike passes, the filter yields that bike alone |
| Scenarios.FilterNoneMatching | src/pages/CataloguePage.tsx:18-22 | when no bike passes, the filter yields nothing |
| Scenarios.OtherBrandRejected | src/pages/CataloguePage.tsx:20 | a chosen brand turns away every bike of another brand |
| Scenarios.ChosenBrandListed | src/pages/CataloguePage.tsx:19-21 | with no search term, a bike of the chosen brand inside the range passes |
| Scenarios.FilterBmw | src/pages/CataloguePage.tsx:20 | choosing BMW keeps the S1000RR and the GS 310, in catalogue order |
| Scenarios.BmwNewestFirst | src/pages/CataloguePage.tsx:30-31 | BMW with "year-new" lists the S1000RR before the GS 310: both are 2025 models, so input order decides |

## Left out

- Rendering, styling, animation and the randomly placed background
  particles: presentational only.
- React state and memo mechanics: the query is a pure function of the
  listings and the criteria. The `console.log` of the listings is output
  only.
- Full-Unicode `toLowerCase`: modelled as ASCII case folding, as stated above.
- Locale-aware collation in `localeCompare`: modelled as code-point
  lexicographic order, as stated above. The fixture's names need nothing more.
- The `parseInt` grammar: a price box's text enters the model already
  parsed, as `Option<int>`, with `None` for an unparsable entry (`NaN`).
- The "show filters" toggle: it only hides or shows the controls.
- Routing, the home page's first-three featured bikes, the detail page's
  lookup by id, the contact form, the card component and the footer:
  rendering or one-line glue with no filtering or sorting logic.
- An available/sold split of the listings: the data file has no `sold` field
  and the catalogue page never separates the two, so there is nothing to
  model. `Catalogue.QueryPartition` states what such a split would rely on.

## Findings

| source | as written | input that shows it | evidently intended | confidence | as-written member | corrected member |
|---|---|---|---|---|---|---|
| src/pages/CataloguePage.tsx:197-202 | both "Clear Filters" buttons (also lines 270-275) reset the price range to [0, 50000]. The page opens with [0, 5000000] (line 10). | the catalogue's own seven listings. Every price is at least 191000, so clearing the filters lists nothing and the page shows its "no bikes found" state. | clearing restores the opening criteria and lists all seven bikes | medium, not executed | Controls.ClearFiltersHidesFixture | Controls.ResetFiltersShowsFixture |
