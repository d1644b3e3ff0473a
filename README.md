# Listing selection and display arithmetic of a real-estate front end

This project models the logic of the two front ends of a small Indian real-estate
listing application: `client/` (numeric ids, string filter fields) and `src/`
(string ids, numeric bounds with sentinels). It covers:

- **The listing pipelines.** `filteredProperties` of both Apps is a chain of `filter`
  passes over the catalog. In the `client` App every pass is guarded by its field being
  set; in the `src` App the price-range pass always runs. Each is modelled as a method
  that reassigns `filtered` pass by pass and is proved equal to one combined filter.
- **Favourites.** The favourites set is toggled by copying it and deleting or adding
  one id. The favourite subset is the catalog filtered by membership.
- **The filter-record editors.** These are single-key record updates, the reset
  records, and the encoding of the "no upper limit" price sentinel
  (`50000000` shown as an empty box).
- **The Dashboard.** It shows the guarded average price, per-city and per-type tallies
  built by a `reduce` over an accumulator object, the number of cities explored,
  bar widths and the five most recent favourites.
- **The price texts.** A price is shown in crore (≥ 10,000,000) or lakh (≥ 100,000) with
  one decimal, otherwise as a grouped integer. The price per square foot is
  `Math.round(price / area)`. The comparison view shows at most three amenity chips
  plus a "+k more" badge.

JavaScript numbers are modelled as integers. A NaN is `None`. `parseInt` and `Number`
are total parsers into `Option<int>`, and every comparison with NaN is false.
Quotients are carried as fractions `num / den`, so the Dashboard's average is exact.

Two behaviours of the code worth noting:

- The `src` App filters bedrooms exactly (`=== N`), except that "4" means four or
  more. It does not use "N or more" throughout.
- The Dashboard's bar width is `count / favorites.size * 100`, where `favorites.size`
  is the size of the whole favourites set, not of the favourite subset. No guard is
  needed, because a bar exists only when some favourite was found (`BarsWithinRange`).

Modules: `Wrappers` (Option), `Select` (an option of a select control), `JsText`
(the JavaScript string and number built-ins used), `Seqs` (`Array.prototype.filter`
and its laws), `Catalog` (the client records), `Favorites`, `ClientApp`,
`FilterPanel`, `SearchFilters`, `SrcApp`, `PriceFormat`, `Dashboard`,
`PropertyComparison`, `PropertyDetails`.

## Model

| member | source | states |
|---|---|---|
| Seqs.Filter | client/src/App.tsx:34 | `filter` never lengthens the array |
| Seqs.FilterMembers | client/src/App.tsx:34-38 | an element survives a `filter` pass exactly when it is present and accepted |
| Seqs.FilterIsSubsequence | client/src/App.tsx:29-73 | each `filter` pass keeps an order-preserving subsequence |
| Seqs.FilterExt | client/src/App.tsx:29-73 | a pass depends only on what its predicate says about the entries present |
| Seqs.FilterKeepsAll | client/src/App.tsx:29-73 | a pass whose predicate accepts everything leaves the list unchanged |
| Seqs.FilterDropsAll | client/src/App.tsx:52-70 | a pass that accepts nothing empties the list |
| Seqs.FilterAppend | client/src/App.tsx:29-73 | filtering distributes over concatenation |
| Seqs.FilterFilter | client/src/App.tsx:29-73 | two passes in a row are one pass with both predicates |
| Seqs.FilterCommute | client/src/App.tsx:41-70 | two passes may run in either order |
| Seqs.FilterMonotone | client/src/App.tsx:41-70 | a stronger predicate keeps a subsequence of what a weaker one keeps |
| Seqs.ConditionalPass | client/src/App.tsx:33-39 | a pass guarded by `if (field)` filters by "previous predicate, and this one when the field is set" |
| Catalog.TypeNameInjective | client/src/types/Property.ts:7 | the four type literals are distinct, so a type string names at most one kind |
| JsText.Lower | client/src/App.tsx:35 | `toLowerCase` keeps the length and maps each character on its own |
| JsText.LowerIdempotent | client/src/App.tsx:35-37 | lower-casing twice is lower-casing once |
| JsText.IncludesAt | client/src/App.tsx:44 | `includes` holds exactly when the needle occurs at some position |
| JsText.TrimStart | client/src/App.tsx:53 | the result is a suffix not starting with white space, and everything removed before it is white space |
| JsText.TrimEnd | src/components/SearchFilters.tsx:126 | the result is a prefix not ending with white space, and everything removed after it is white space |
| JsText.ParseInt | client/src/App.tsx:53-69 | `parseInt` gives a number exactly when, after the leading white space, the text opens with a digit or with a sign and a digit |
| JsText.NumberOf | src/components/SearchFilters.tsx:126-133 | `Number` of blank text is 0, and of a string of digits is their value |
| JsText.IntToString | src/components/SearchFilters.tsx:125-132 | the decimal text of a number is never empty and starts with a minus sign exactly for a negative number |
| JsText.DigitPrefix | client/src/App.tsx:53 | `parseInt` reads the longest run of digits at the start |
| JsText.NatToString | src/components/SearchFilters.tsx:132 | the decimal text of a number is all digits, has no leading zero and reads back as that number |
| JsText.IntToStringReads | client/src/App.tsx:53 | `parseInt` and `Number` read the decimal text of `n` back as `n` |
| JsText.GroupThousandsUngroups | client/src/components/Dashboard.tsx:33 | en-US grouping only inserts commas: removing them gives the digits back |
| JsText.GroupIndianUngroups | src/components/PropertyDetails.tsx:20 | en-IN grouping only inserts commas: removing them gives the digits back |
| JsText.LocaleInt | client/src/components/PropertyComparison.tsx:26 | `toLocaleString()` of an integer is its decimal text with commas inserted |
| JsText.IndianLocaleInt | src/components/PropertyDetails.tsx:20 | `toLocaleString('en-IN')` of an integer is its decimal text with commas inserted |
| JsText.LocaleIntNumeral | client/src/components/Dashboard.tsx:33 | both groupings of an integer consist of digits, commas and a minus sign only |
| JsText.IndianMatchesThousands | src/components/PropertyDetails.tsx:20 | up to five digits the en-IN and en-US groupings agree |
| JsText.DigitsBound | src/components/PropertyDetails.tsx:17 | a numeral of six or more digits without a leading zero is worth at least a lakh |
| Favorites.Toggled | client/src/App.tsx:79-89 | toggling flips the membership of `id` and no other |
| Favorites.ToggleFavorite | client/src/App.tsx:80-88 | copying the set and deleting or adding `id` produces the toggled set |
| Favorites.ToggleTwice | client/src/App.tsx:79-89 | toggling the same id twice restores the set |
| Favorites.ToggleSize | client/src/App.tsx:79-89 | a toggle changes the size by exactly one |
| Favorites.ToggleCommute | client/src/App.tsx:79-89 | toggles of different ids commute |
| ClientApp.Matching | client/src/App.tsx:29-73 | the listing is a subsequence of the catalog holding exactly the entries that pass every active constraint |
| ClientApp.StageStep | client/src/App.tsx:33-70 | each guarded pass adds exactly its own constraint to the constraints before it |
| ClientApp.PassNarrows | client/src/App.tsx:33-70 | running pass `k` on the result of the first `k` passes gives the result of `k + 1` passes |
| ClientApp.StagedIsOnePass | client/src/App.tsx:30-72 | after any number of passes the list is the catalog filtered by the conjunction of those passes |
| ClientApp.StagedIsMatching | client/src/App.tsx:30-72 | all eight passes together give the combined listing |
| ClientApp.FilteredProperties | client/src/App.tsx:29-73 | the step-by-step pipeline returns exactly the combined listing |
| ClientApp.NoConstraintKeepsAll | client/src/App.tsx:30-33 | with no search term and every field empty the listing is the catalog in its order |
| ClientApp.SearchAlone | client/src/App.tsx:33-39 | a search alone keeps exactly the entries whose lower-cased title, location or city contains the lower-cased term |
| ClientApp.SearchIgnoresCase | client/src/App.tsx:35-37 | search terms equal up to case select the same listing |
| ClientApp.CityIgnoresCase | client/src/App.tsx:42-46 | city fields equal up to case select the same listing |
| ClientApp.CityIsSubstring | client/src/App.tsx:42-46 | a city field keeps the entries whose city contains it at some position, ignoring case |
| ClientApp.TypeIsExact | client/src/App.tsx:48-50 | a type field keeps the entries of exactly that kind |
| ClientApp.RangesAreInclusive | client/src/App.tsx:52-70 | price and area bounds written as numbers include both ends |
| ClientApp.BedroomChoiceIsAtLeast | client/src/App.tsx:60-62 | bedroom option `i` keeps exactly the entries with at least `i` bedrooms |
| ClientApp.FractionReadsAsPrefix | client/src/App.tsx:53 | a bound typed as "1.5" acts as 1 |
| ClientApp.UnreadableBoundEmpties | client/src/App.tsx:52-70 | a non-empty numeric field that `parseInt` reads as NaN empties the listing |
| ClientApp.PassesCommute | client/src/App.tsx:41-70 | any two passes of the chain commute |
| ClientApp.AddingConstraintNarrows | client/src/App.tsx:41-70 | filling in one more empty field gives a subsequence of the earlier listing |
| ClientApp.SearchingNarrows | client/src/App.tsx:33-39 | a search gives a subsequence of the listing without it |
| ClientApp.ExtraKeysIgnored | client/src/components/FilterPanel.tsx:110-148 | setting `furnished`, `parking` or `rating` never changes the listing |
| ClientApp.ExtraChoicesChangeNothing | client/src/components/FilterPanel.tsx:110-148 | no option of the furnished, parking or rating selects changes the listing |
| ClientApp.FavoriteProperties | client/src/App.tsx:75-77 | the favourite subset is a subsequence of the catalog holding exactly the entries whose id is a favourite |
| ClientApp.ToggleFavorite | client/src/App.tsx:79-89 | the favourites set is toggled and nothing else in the state changes |
| ClientApp.ClearFilters | client/src/App.tsx:91-102 | the search term and the seven fields become empty, the extra keys disappear, favourites stay |
| ClientApp.ShowsClearAllExactly | client/src/App.tsx:193 | "Clear all filters" shows exactly when the term or some written key is non-empty |
| ClientApp.ValueHasKey | client/src/App.tsx:193 | every value `Object.values` reports belongs to some key of the record |
| ClientApp.HiddenButtonMeansFullListing | client/src/App.tsx:193 | when the button is hidden the listing is the whole catalog |
| ClientApp.ClearShowsEverything | client/src/App.tsx:91-102 | after clearing, the button is hidden and the listing is the whole catalog |
| FilterPanel.HandleFilterChange | client/src/components/FilterPanel.tsx:15-20 | the key now holds the value and every other key is unchanged |
| FilterPanel.LookupDetermines | client/src/components/FilterPanel.tsx:16-19 | a record is determined by the values of its keys |
| FilterPanel.ChangeIdempotent | client/src/components/FilterPanel.tsx:15-20 | repeating an update changes nothing more |
| FilterPanel.ChangesCommute | client/src/components/FilterPanel.tsx:15-20 | updates of different keys commute |
| FilterPanel.LastWriteWins | client/src/components/FilterPanel.tsx:15-20 | of two writes to one key the last one wins |
| FilterPanel.TypeChoicesAreTheKinds | client/src/components/FilterPanel.tsx:43-47 | the type options are "all" followed by each of the four kinds, and only those |
| FilterPanel.BedroomChoicesText | client/src/components/FilterPanel.tsx:80-84 | bedroom option `i` holds the decimal text of `i` and is captioned "i+" |
| FilterPanel.BedroomChoicesRead | client/src/components/FilterPanel.tsx:80-84 | bedroom option `i` reads back as the number `i` |
| SearchFilters.ClearFilters | src/components/SearchFilters.tsx:23-33 | the reset record has empty texts and the bounds 0, 50000000, 0, 10000 |
| SearchFilters.ClearIdempotent | src/components/SearchFilters.tsx:23-33 | clearing twice is clearing once |
| SearchFilters.HandleFilterChange | src/components/SearchFilters.tsx:19-21 | the key now holds the value and every other key is unchanged |
| SearchFilters.GetDetermines | src/components/SearchFilters.tsx:19-21 | a record is determined by the values of its keys |
| SearchFilters.ChangeIdempotent | src/components/SearchFilters.tsx:19-21 | repeating an update changes nothing more |
| SearchFilters.ChangesCommute | src/components/SearchFilters.tsx:19-21 | updates of different keys commute |
| SearchFilters.LastWriteWins | src/components/SearchFilters.tsx:19-21 | of two writes to one key the last one wins |
| SearchFilters.MinPriceText | src/components/SearchFilters.tsx:125 | the minimum-price box is empty exactly for 0 and NaN |
| SearchFilters.MinPriceEntry | src/components/SearchFilters.tsx:126 | a blank minimum-price box stores 0, and typed digits store their value |
| SearchFilters.MaxPriceText | src/components/SearchFilters.tsx:132 | the maximum-price box is empty exactly for the sentinel 50000000 |
| SearchFilters.MaxPriceEntry | src/components/SearchFilters.tsx:133 | typing in the maximum-price box never stores 0 or NaN |
| SearchFilters.MinPriceRoundTrip | src/components/SearchFilters.tsx:125-126 | showing a minimum price and typing it back stores the same number, NaN coming back as 0 |
| SearchFilters.EmptyMinPriceIsZero | src/components/SearchFilters.tsx:126 | an empty minimum-price box means 0 |
| SearchFilters.EmptyOrZeroMaxPriceIsUnlimited | src/components/SearchFilters.tsx:133 | an empty box or a typed 0 stores the sentinel |
| SearchFilters.MaxPriceRoundTrip | src/components/SearchFilters.tsx:132-133 | showing a maximum price and typing it back stores the same number exactly when it is not 0 |
| SearchFilters.OnChange | src/components/SearchFilters.tsx:66-133 | no control moves the area bounds; the maximum-price input always stores a non-zero number |
| SearchFilters.EditsKeepArea | src/components/SearchFilters.tsx:58-137 | no sequence of edits in the panel moves the area bounds |
| SearchFilters.Edited | src/components/SearchFilters.tsx:58-137 | after a sequence of edits the maximum price is untouched unless its box was edited, and once it was edited the maximum is a number other than 0 |
| SearchFilters.CityChoices | src/components/SearchFilters.tsx:71-76 | "All Cities" followed by one option per city of the first twenty, in order |
| SearchFilters.SeedCityChoices | client/src/utils/mockData.ts:253-261 | with the seed list there are 21 options, the last being Vadodara |
| SearchFilters.BedroomChoicesText | src/components/SearchFilters.tsx:108-113 | bedroom option `i` holds the decimal text of `i`; only "4+ BHK" carries a "+" |
| SearchFilters.BedroomChoicesRead | src/components/SearchFilters.tsx:108-113 | bedroom option `i` reads back as the number `i` |
| SrcApp.Matching | src/App.tsx:30-71 | the listing is a subsequence of the catalog holding exactly the entries that pass every active constraint |
| SrcApp.StageStep | src/App.tsx:34-68 | each guarded pass adds exactly its own constraint |
| SrcApp.PassNarrows | src/App.tsx:34-68 | running pass `k` on the result of the first `k` passes gives the result of `k + 1` passes |
| SrcApp.StagedIsOnePass | src/App.tsx:31-70 | after any number of passes the list is the catalog filtered by the conjunction of those passes |
| SrcApp.StagedIsMatching | src/App.tsx:31-70 | all five passes together give the combined listing |
| SrcApp.FilteredProperties | src/App.tsx:30-71 | the step-by-step pipeline, with its nested bedroom test and its unconditional range pass, returns exactly the combined listing |
| SrcApp.DefaultsKeepInRange | src/App.tsx:19-27 | under the initial record the listing is exactly the entries priced 0..50000000 with area 0..10000 |
| SrcApp.SearchNarrows | src/App.tsx:34-42 | a query keeps the entries whose title, city, location or type contains it, ignoring case |
| SrcApp.SearchIgnoresCase | src/App.tsx:37-40 | queries equal up to case select the same listing |
| SrcApp.CityIsExact | src/App.tsx:45-47 | a city field keeps exactly the entries whose city equals it, case included |
| SrcApp.BedroomsRule | src/App.tsx:53-60 | "4" keeps four or more bedrooms; other text keeps exactly the count read, and nothing for NaN |
| SrcApp.BedroomChoiceRule | src/components/SearchFilters.tsx:108-113 | options 1 to 3 keep exactly that many bedrooms, "4+ BHK" four or more |
| SrcApp.NaNBoundEmpties | src/App.tsx:62-68 | a NaN bound empties the listing |
| SrcApp.SettingFieldNarrows | src/App.tsx:45-60 | setting an empty text field gives a subsequence of the earlier listing |
| SrcApp.TighterRangeNarrows | src/App.tsx:62-68 | a narrower price or area range gives a subsequence of the earlier listing |
| SrcApp.FavoriteProperties | src/App.tsx:73-75 | the favourite subset holds exactly the entries whose string id is a favourite, in catalog order |
| SrcApp.HandleToggleFavorite | src/App.tsx:77-87 | the favourites set is toggled and nothing else in the state changes |
| SrcApp.HandleSearch | src/App.tsx:89-92 | the query becomes `q`, the view becomes home, favourites and filters stay |
| SrcApp.ResetFromEmptyState | src/App.tsx:169-179 | the query becomes empty and the filters become exactly the initial record |
| SrcApp.ResetListsInRange | src/App.tsx:169-179 | after the reset the listing holds exactly the in-range entries |
| SrcApp.EmptyAfterResetMeansNoneInRange | src/App.tsx:159-185 | after the reset, "No properties found" shows again exactly when no entry lies in the default range |
| PriceFormat.RoundHalfUp | client/src/components/PropertyComparison.tsx:26 | `Math.round(n / d)` is the integer within half of `n / d`, a half going up |
| PriceFormat.NearestIsUnique | client/src/components/Dashboard.tsx:29 | away from a tie only one integer lies within half, so the shown tenth is forced |
| PriceFormat.RoundedAtLeast | client/src/components/Dashboard.tsx:29 | a lower bound on a quotient bounds its rounding |
| PriceFormat.RoundedAtMost | client/src/components/Dashboard.tsx:31 | a strict upper bound on a quotient bounds its rounding |
| PriceFormat.Tier | client/src/components/Dashboard.tsx:27-34 | crore exactly from 10,000,000, lakh exactly from 100,000 to below that, each within half a tenth |
| PriceFormat.WholePriceTenths | client/src/components/Dashboard.tsx:29-31 | off ties a whole price shows `(p + 500000) div 1000000` or `(p + 5000) div 10000` tenths |
| PriceFormat.TenthsText | client/src/components/Dashboard.tsx:29 | `toFixed(1)` writes one digit after the point |
| PriceFormat.TenthsRoundTrip | client/src/components/Dashboard.tsx:29 | the one-decimal text determines the tenths it was written from |
| PriceFormat.FractionText | client/src/components/Dashboard.tsx:33 | the decimals of a locale number are empty exactly for a whole number |
| PriceFormat.LocaleDecimal | client/src/components/Dashboard.tsx:33 | the locale text of a number shows a decimal point exactly when it has a fraction, and a minus sign exactly when it is negative |
| PriceFormat.LocaleDecimalOfWhole | client/src/components/Dashboard.tsx:33 | a whole price is shown as its grouped integer |
| PriceFormat.FormatPrice | client/src/components/PropertyComparison.tsx:16-23 | every price text starts with "₹" |
| PriceFormat.LocaleDecimalNumeral | client/src/components/Dashboard.tsx:33 | the plain tier's number holds only digits, commas, a point and a minus sign |
| PriceFormat.TenthsNumeral | client/src/components/Dashboard.tsx:29 | the one-decimal text holds only digits and a point |
| PriceFormat.FormatPriceTiers | client/src/components/Dashboard.tsx:27-34 | " Cr" exactly from a crore up, " L" exactly from a lakh to below a crore |
| PriceFormat.FormatWholePlain | client/src/components/Dashboard.tsx:33 | a whole price below a lakh is "₹" and its grouped integer |
| PriceFormat.JustBelowCrore | client/src/components/Dashboard.tsx:30-31 | 9999999 is shown as "₹100.0 L" |
| PriceFormat.OneCrore | client/src/components/Dashboard.tsx:28-29 | 10000000 is shown as "₹1.0 Cr" |
| PriceFormat.RoundedQuotient | client/src/components/PropertyComparison.tsx:26 | for a non-zero area the nearest integer to price / area; for area 0 an infinity, or NaN for 0 / 0 |
| PriceFormat.RoundedQuotientByDivision | client/src/components/PropertyComparison.tsx:26 | for a positive area the rounding is the only integer within half, `(2p + a) div (2a)` |
| PriceFormat.PositiveAreaQuotient | client/src/components/PropertyComparison.tsx:26 | for a positive area `Math.round(p / a)` is `(2p + a) div (2a)` |
| PriceFormat.NumberLocale | client/src/components/PropertyComparison.tsx:26 | with its commas removed, the text of a finite rounded quotient reads back as that quotient; the texts of the infinities and NaN read as NaN |
| PriceFormat.IndianNumberLocale | src/components/PropertyDetails.tsx:167 | the same for the en-IN text |
| PriceFormat.NonFiniteTexts | client/src/components/PropertyComparison.tsx:26 | "∞", "-∞" and "NaN" hold no comma and read as NaN |
| PropertyComparison.FormatPricePerSqFt | client/src/components/PropertyComparison.tsx:25-27 | for a positive area "₹" and the grouped rounded quotient; for area 0 "₹∞", "₹-∞" or "₹NaN" |
| PropertyComparison.TopAmenities | client/src/components/PropertyComparison.tsx:124 | the chips are the first min(3, n) amenities, in order |
| PropertyComparison.MoreBadge | client/src/components/PropertyComparison.tsx:132-136 | the badge appears exactly when there are more than three amenities |
| PropertyComparison.BadgeCountsTheRest | client/src/components/PropertyComparison.tsx:124-136 | the chips plus the badge's number are every amenity; without a badge the chips are all of them |
| PropertyComparison.Cards | client/src/components/PropertyComparison.tsx:44-45 | one card per property, in the order given |
| PropertyComparison.NoticeIffFewCards | client/src/components/PropertyComparison.tsx:144-148 | the notice shows exactly when fewer than two cards do |
| PropertyDetails.FormatPrice | src/components/PropertyDetails.tsx:14-21 | the price text is never empty |
| PropertyDetails.FormatPriceTiers | src/components/PropertyDetails.tsx:15-18 | " Crore" exactly from a crore up, " Lakh" exactly from a lakh to below a crore |
| PropertyDetails.NoCurrencySign | src/components/PropertyDetails.tsx:14-21 | no tier carries a currency sign |
| PropertyDetails.PlainIsThousands | src/components/PropertyDetails.tsx:20 | below a lakh the en-IN text is the plain thousands grouping |
| PropertyDetails.SameFiguresAsDashboard | src/components/PropertyDetails.tsx:15-18 | the crore and lakh figures are those the Dashboard shows |
| PropertyDetails.PricePerSqFtText | src/components/PropertyDetails.tsx:167 | for a positive area "₹" and the en-IN rounded quotient; for area 0 and a positive price "₹∞" |
| Dashboard.SumBetween | client/src/components/Dashboard.tsx:14 | the sum of the prices lies between count × least and count × greatest price |
| Dashboard.AvgPrice | client/src/components/Dashboard.tsx:13-15 | 0 for no favourites, otherwise sum over count, between the least and the greatest price |
| Dashboard.AvgPriceCard | client/src/components/Dashboard.tsx:72 | the card starts with "₹" and reads "₹0" when the average is not positive |
| Dashboard.NoFavoritesAverage | client/src/components/Dashboard.tsx:13-15 | with no favourites the card reads "₹0" |
| Dashboard.AverageCardTier | client/src/components/Dashboard.tsx:72 | the average card uses crore exactly when the mean reaches a crore |
| Dashboard.Keys | client/src/components/Dashboard.tsx:18 | the key of each property, in order |
| Dashboard.Distribution | client/src/components/Dashboard.tsx:17-25 | the keys are exactly those present, in first-seen order, and each count is the number of entries with that key |
| Dashboard.DistinctListsEachOnce | client/src/components/Dashboard.tsx:99 | a key is listed exactly when it occurs, and never twice |
| Dashboard.DistinctCount | client/src/components/Dashboard.tsx:84 | "Cities Explored" is the number of distinct cities |
| Dashboard.OccurrencesOfPresent | client/src/components/Dashboard.tsx:111 | a listed key is counted at least once and at most once per entry |
| Dashboard.CountsAddUp | client/src/components/Dashboard.tsx:17-25 | the counts of a distribution add up to the number of favourites found |
| Dashboard.AtMostOnePerFavorite | client/src/components/Dashboard.tsx:11 | with unique ids, no more favourites are found than the favourites set holds |
| Dashboard.FilterKeepsIdsUnique | client/src/components/Dashboard.tsx:11 | the favourite subset keeps the catalog's ids unique |
| Dashboard.BarsWithinRange | client/src/components/Dashboard.tsx:107 | with unique ids a bar exists only for a non-empty set, and its width is above 0% and at most 100% |
| Dashboard.WidthBounds | client/src/components/Dashboard.tsx:134 | a count between 1 and the set size gives a width in (0, 100] |
| Dashboard.Recent | client/src/components/Dashboard.tsx:154 | the recent favourites are the first min(5, n), in order |
| Dashboard.Bars | client/src/components/Dashboard.tsx:99 | one bar per listed key, with that key's count |
| Dashboard.Render | client/src/components/Dashboard.tsx:10-176 | the view's totals, average card, cities explored, city and type bars and recent list, each as specified above |

## Left out

- The mortgage calculator is not part of this model. Its EMI formula is floating-point arithmetic (`Math.pow`).
- PriceFormat.Tier: at an exact tie of a tenth (`p mod 1000000 = 500000` in crore, `p mod 10000 = 5000` in lakh) its contract allows either neighbour. `toFixed` decides ties on the binary double, and the body rounds half up.
- PriceFormat.RoundedQuotient: modelled on exact rationals. The double division before `Math.round` could round a quotient within one ulp of a half the other way.
- JsText.LocaleInt: `toLocaleString()` is taken to use the en-US grouping. The runtime locale is outside the model.
- PriceFormat.LocaleDecimal: a fractional average below a lakh is shown with at most three decimals, the default of `toLocaleString`. The model rounds its thousandths half up, while the runtime rounds the binary double.
- JsText.Lower: lower-cases ASCII letters only. Unicode case mapping (used by `toLowerCase`) is not modelled.
- JsText.NumberOf: reads optional white space, an optional sign and decimal digits. Fractions, exponents, `Infinity` and hexadecimal give `None` (NaN) here, although `Number` reads them.
- JsText.ParseInt: the `0x` hexadecimal prefix `parseInt` also accepts is not modelled.
- The client rating filter writes a `rating` key that `Property` lacks. The rating column of the comparison view reads a field that the client `Property` type does not declare, so it is not modelled.
- `src/types/Property.ts` and `src/utils/mockData.ts` are not part of this model. The `src` listing record takes its fields from their uses in `src/App.tsx`. The city list comes from `client/src/utils/mockData.ts`.
- SearchFilters.MaxPriceText shows NaN as the text "NaN". What a number input then displays is browser behaviour.
- The panel's open and closed state (`isOpen`, `filtersOpen`, `showFilters`), the "Clear All" button's visibility, the selected property and the modal are view state with no logic and are not modelled.
- `Object.keys` and `Object.entries` are taken to report keys in insertion order. That holds unless a key looks like an array index, which no city or type name does.
- SearchFilters.HandleFilterChange requires the value to have the key's type (text for text fields, a number for bounds). The source passes `any` but every caller passes the matching type.
- React state hooks, memoisation and rendering are replaced by explicit state records and functions. The Express server, the UI-only components and the `src` Dashboard (hard-coded figures) are not part of this model.
