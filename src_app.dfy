/**
 * The `src` front end's App: its listing pipeline (search over four fields,
 * exact city and type, a bedroom rule with a "4 or more" bucket, and price
 * and area ranges that always apply), the favourites subset, the search
 * handler and the empty-state reset.
 */
module SrcApp {
  import opened Wrappers
  import opened JsText
  import opened Seqs
  import opened SearchFilters
  import Favorites

  /** The fields of a listing that this App reads; identifiers are strings here. */
  datatype Listing = Listing(
    id: string,
    title: string,
    location: string,
    city: string,
    price: int,
    propertyType: string,
    bedrooms: int,
    area: int)

  // -----------------------------------------------------------------------
  // The passes of the pipeline

  /** The search: the lower-cased query occurs in the title, city, location or type. */
  predicate SearchHit(p: Listing, query: string)
  {
    var q := Lower(query);
    Includes(Lower(p.title), q) || Includes(Lower(p.city), q)
    || Includes(Lower(p.location), q) || Includes(Lower(p.propertyType), q)
  }

  /** The bedroom rule for a parsed count: 4 means at least four, any other count (or NaN) an exact match. */
  predicate BedroomsHit(p: Listing, count: Option<int>)
  {
    if count == Some(4) then p.bedrooms >= 4 else count == Some(p.bedrooms)
  }

  /** The range pass: price and area within the record's bounds, both ends included. */
  predicate InRange(p: Listing, f: Filters)
  {
    AtLeast(p.price, f.minPrice) && AtMost(p.price, f.maxPrice)
    && AtLeast(p.area, f.minArea) && AtMost(p.area, f.maxArea)
  }

  /** The first `stage` passes: search, city, type and bedrooms when their field is set, then the range. */
  predicate MatchesUpTo(p: Listing, query: string, f: Filters, stage: nat)
  {
    && (stage > 0 && query != "" ==> SearchHit(p, query))
    && (stage > 1 && f.city != "" ==> p.city == f.city)
    && (stage > 2 && f.propertyType != "" ==> p.propertyType == f.propertyType)
    && (stage > 3 && f.bedrooms != "" ==> BedroomsHit(p, ParseInt(f.bedrooms)))
    && (stage > 4 ==> InRange(p, f))
  }

  predicate Matches(p: Listing, query: string, f: Filters)
  {
    MatchesUpTo(p, query, f, 5)
  }

  function MatchPred(query: string, f: Filters): Listing -> bool
  {
    (p: Listing) => Matches(p, query, f)
  }

  function UpTo(query: string, f: Filters, stage: nat): Listing -> bool
  {
    (p: Listing) => MatchesUpTo(p, query, f, stage)
  }

  /** The listing as one combined pass: the entries meeting every constraint, in catalog order. */
  function Matching(catalog: seq<Listing>, query: string, f: Filters): (r: seq<Listing>)
    ensures IsSubsequence(r, catalog)
    ensures forall p :: p in r <==> p in catalog && Matches(p, query, f)
  {
    FilterIsSubsequence(catalog, MatchPred(query, f));
    FilterMembers(catalog, MatchPred(query, f));
    Filter(catalog, MatchPred(query, f))
  }

  // The passes as the App writes them, one closure per `filter` call.
  function SearchPass(query: string): Listing -> bool { (p: Listing) => SearchHit(p, query) }
  function CityPass(city: string): Listing -> bool { (p: Listing) => p.city == city }
  function TypePass(t: string): Listing -> bool { (p: Listing) => p.propertyType == t }
  function FourOrMorePass(): Listing -> bool { (p: Listing) => p.bedrooms >= 4 }
  function ExactBedroomsPass(count: Option<int>): Listing -> bool { (p: Listing) => count == Some(p.bedrooms) }
  function RangePass(f: Filters): Listing -> bool { (p: Listing) => InRange(p, f) }

  /** Whether pass number `stage` runs; the range pass always does. */
  function Active(query: string, f: Filters, stage: nat): bool
  {
    match stage
    case 0 => query != ""
    case 1 => f.city != ""
    case 2 => f.propertyType != ""
    case 3 => f.bedrooms != ""
    case _ => true
  }

  /** The predicate pass number `stage` filters by; the bedroom pass depends on the parsed count. */
  function PassAt(query: string, f: Filters, stage: nat): Listing -> bool
  {
    match stage
    case 0 => SearchPass(query)
    case 1 => CityPass(f.city)
    case 2 => TypePass(f.propertyType)
    case 3 => if ParseInt(f.bedrooms) == Some(4) then FourOrMorePass() else ExactBedroomsPass(ParseInt(f.bedrooms))
    case _ => RangePass(f)
  }

  lemma StageStep(p: Listing, query: string, f: Filters, stage: nat)
    requires stage < 5
    ensures MatchesUpTo(p, query, f, stage + 1)
         == (MatchesUpTo(p, query, f, stage) && (!Active(query, f, stage) || PassAt(query, f, stage)(p)))
  {
    match stage
    case 0 =>
    case 1 =>
    case 2 =>
    case 3 =>
    case 4 =>
  }

  /** Running pass `stage` when it is active turns the first `stage` passes into the first `stage + 1`. */
  lemma PassNarrows(catalog: seq<Listing>, query: string, f: Filters, stage: nat, before: seq<Listing>)
    requires stage < 5
    requires before == Filter(catalog, UpTo(query, f, stage))
    ensures (if Active(query, f, stage) then Filter(before, PassAt(query, f, stage)) else before)
         == Filter(catalog, UpTo(query, f, stage + 1))
  {
    var keep := PassAt(query, f, stage);
    forall x | x in catalog
      ensures UpTo(query, f, stage + 1)(x) == (UpTo(query, f, stage)(x) && (!Active(query, f, stage) || keep(x)))
    {
      assert UpTo(query, f, stage + 1)(x) == MatchesUpTo(x, query, f, stage + 1);
      assert UpTo(query, f, stage)(x) == MatchesUpTo(x, query, f, stage);
      StageStep(x, query, f, stage);
    }
    ConditionalPass(catalog, before, UpTo(query, f, stage), Active(query, f, stage), keep, UpTo(query, f, stage + 1));
  }

  /** The list after the first `stage` passes, each run on the output of the one before. */
  function Staged(catalog: seq<Listing>, query: string, f: Filters, stage: nat): seq<Listing>
    requires stage <= 5
  {
    if stage == 0 then catalog
    else
      var before := Staged(catalog, query, f, stage - 1);
      if Active(query, f, stage - 1) then Filter(before, PassAt(query, f, stage - 1)) else before
  }

  lemma {:induction false} StagedIsOnePass(catalog: seq<Listing>, query: string, f: Filters, stage: nat)
    requires stage <= 5
    ensures Staged(catalog, query, f, stage) == Filter(catalog, UpTo(query, f, stage))
  {
    if stage == 0 {
      FilterKeepsAll(catalog, UpTo(query, f, 0));
    } else {
      StagedIsOnePass(catalog, query, f, stage - 1);
      PassNarrows(catalog, query, f, stage - 1, Staged(catalog, query, f, stage - 1));
    }
  }

  /** The chain of all five passes is the single combined pass. */
  lemma StagedIsMatching(catalog: seq<Listing>, query: string, f: Filters)
    ensures Staged(catalog, query, f, 5) == Matching(catalog, query, f)
  {
    StagedIsOnePass(catalog, query, f, 5);
    FilterExt(catalog, UpTo(query, f, 5), MatchPred(query, f));
  }

  /**
   * `filteredProperties`: each set field narrows the list with one more
   * `filter` pass, and the range pass always runs last.
   */
  method FilteredProperties(catalog: seq<Listing>, query: string, f: Filters) returns (filtered: seq<Listing>)
    ensures filtered == Matching(catalog, query, f)
  {
    filtered := catalog;
    if query != "" {
      filtered := Filter(filtered, SearchPass(query));
    }
    assert filtered == Staged(catalog, query, f, 1);
    if f.city != "" {
      filtered := Filter(filtered, CityPass(f.city));
    }
    assert filtered == Staged(catalog, query, f, 2);
    if f.propertyType != "" {
      filtered := Filter(filtered, TypePass(f.propertyType));
    }
    assert filtered == Staged(catalog, query, f, 3);
    if f.bedrooms != "" {
      var bedroomCount := ParseInt(f.bedrooms);
      if bedroomCount == Some(4) {
        filtered := Filter(filtered, FourOrMorePass());
      } else {
        filtered := Filter(filtered, ExactBedroomsPass(bedroomCount));
      }
    }
    assert filtered == Staged(catalog, query, f, 4);
    filtered := Filter(filtered, RangePass(f));
    assert filtered == Staged(catalog, query, f, 5);
    StagedIsMatching(catalog, query, f);
  }

  // -----------------------------------------------------------------------
  // What the listing promises

  /** Under the initial record and no query, the listing is exactly the entries priced 0..50000000 with area 0..10000. */
  lemma DefaultsKeepInRange(catalog: seq<Listing>, p: Listing)
    ensures p in Matching(catalog, "", Defaults) <==>
              p in catalog && 0 <= p.price <= 50000000 && 0 <= p.area <= 10000
  {
    assert Matches(p, "", Defaults) == InRange(p, Defaults);
  }

  /** A query keeps, of what the fields alone keep, the entries whose title, city, location or type contain it, ignoring case. */
  lemma SearchNarrows(catalog: seq<Listing>, query: string, f: Filters, p: Listing)
    requires query != ""
    ensures p in Matching(catalog, query, f) <==>
              && p in Matching(catalog, "", f)
              && (|| Includes(Lower(p.title), Lower(query))
                  || Includes(Lower(p.city), Lower(query))
                  || Includes(Lower(p.location), Lower(query))
                  || Includes(Lower(p.propertyType), Lower(query)))
  {
    assert Matches(p, query, f) == (SearchHit(p, query) && Matches(p, "", f));
  }

  /** Two queries that agree once lower-cased select the same listing. */
  lemma SearchIgnoresCase(catalog: seq<Listing>, query: string, other: string, f: Filters)
    requires Lower(query) == Lower(other)
    ensures Matching(catalog, query, f) == Matching(catalog, other, f)
  {
    assert |query| == |Lower(query)| == |Lower(other)| == |other|;
    FilterExt(catalog, MatchPred(query, f), MatchPred(other, f));
  }

  /** A city field keeps, of what the rest keeps, the entries whose city is exactly that string, case included. */
  lemma CityIsExact(catalog: seq<Listing>, query: string, f: Filters, p: Listing)
    requires f.city != ""
    ensures p in Matching(catalog, query, f) <==> p in Matching(catalog, query, f.(city := "")) && p.city == f.city
  {
    assert Matches(p, query, f) == (Matches(p, query, f.(city := "")) && p.city == f.city);
  }

  /** Bedrooms "4" keeps four or more; any other text keeps exactly the count `parseInt` reads, and nothing if it reads NaN. */
  lemma BedroomsRule(catalog: seq<Listing>, query: string, f: Filters, p: Listing)
    requires f.bedrooms != ""
    ensures p in Matching(catalog, query, f) <==>
              && p in Matching(catalog, query, f.(bedrooms := ""))
              && (if ParseInt(f.bedrooms) == Some(4) then p.bedrooms >= 4
                  else ParseInt(f.bedrooms).Some? && p.bedrooms == ParseInt(f.bedrooms).value)
  {
    assert Matches(p, query, f) == (Matches(p, query, f.(bedrooms := "")) && BedroomsHit(p, ParseInt(f.bedrooms)));
  }

  /** Bedroom option `i` of the panel keeps exactly `i` bedrooms for 1 to 3 and four or more for "4+". */
  lemma BedroomChoiceRule(catalog: seq<Listing>, i: int, p: Listing)
    requires 1 <= i < |BedroomChoices|
    ensures p in Matching(catalog, "", Defaults.(bedrooms := BedroomChoices[i].value)) <==>
              && p in Matching(catalog, "", Defaults)
              && (if i == 4 then p.bedrooms >= 4 else p.bedrooms == i)
  {
    BedroomChoicesText(i);
    BedroomChoicesRead(i);
    BedroomsRule(catalog, "", Defaults.(bedrooms := BedroomChoices[i].value), p);
    assert Defaults.(bedrooms := BedroomChoices[i].value).(bedrooms := "") == Defaults;
  }

  /** A bound that is NaN, as `Number` gives for unreadable input, empties the listing. */
  lemma NaNBoundEmpties(catalog: seq<Listing>, query: string, f: Filters)
    requires f.minPrice == None || f.maxPrice == None || f.minArea == None || f.maxArea == None
    ensures Matching(catalog, query, f) == []
  {
    FilterDropsAll(catalog, MatchPred(query, f));
  }

  /** Setting a text field that was empty can only shorten the listing. */
  lemma SettingFieldNarrows(catalog: seq<Listing>, query: string, f: Filters, k: Key, v: string)
    requires k == CityKey || k == TypeKey || k == BedroomsKey
    requires Get(f, k) == Text("")
    ensures IsSubsequence(Matching(catalog, query, HandleFilterChange(f, k, Text(v))), Matching(catalog, query, f))
  {
    var g := HandleFilterChange(f, k, Text(v));
    assert forall x :: x in catalog && MatchPred(query, g)(x) ==> MatchPred(query, f)(x);
    FilterMonotone(catalog, MatchPred(query, f), MatchPred(query, g));
  }

  /** Narrowing the price or area range can only shorten the listing. */
  lemma TighterRangeNarrows(catalog: seq<Listing>, query: string, f: Filters, g: Filters)
    requires g.city == f.city && g.propertyType == f.propertyType && g.bedrooms == f.bedrooms
    requires forall x: int :: AtLeast(x, g.minPrice) && AtMost(x, g.maxPrice) ==> AtLeast(x, f.minPrice) && AtMost(x, f.maxPrice)
    requires forall x: int :: AtLeast(x, g.minArea) && AtMost(x, g.maxArea) ==> AtLeast(x, f.minArea) && AtMost(x, f.maxArea)
    ensures IsSubsequence(Matching(catalog, query, g), Matching(catalog, query, f))
  {
    assert forall x :: x in catalog && MatchPred(query, g)(x) ==> MatchPred(query, f)(x);
    FilterMonotone(catalog, MatchPred(query, f), MatchPred(query, g));
  }

  // -----------------------------------------------------------------------
  // Favourites and the App's state

  /** `favoriteProperties`: the catalog entries whose id is in the set, in catalog order. */
  function FavoriteProperties(catalog: seq<Listing>, favorites: set<string>): (r: seq<Listing>)
    ensures IsSubsequence(r, catalog)
    ensures forall p :: p in r <==> p in catalog && p.id in favorites
  {
    var isFavorite := (p: Listing) => p.id in favorites;
    FilterIsSubsequence(catalog, isFavorite);
    FilterMembers(catalog, isFavorite);
    Filter(catalog, isFavorite)
  }

  datatype View = Home | FavoritesView | DashboardView

  /** The parts of the App's state its handlers change. */
  datatype AppState = AppState(view: View, favorites: set<string>, searchQuery: string, filters: Filters)

  /** The state the App starts in. */
  const Initial := AppState(Home, {}, "", Defaults)

  /** `handleToggleFavorite(id)`: the set is copied and `id` deleted or added. */
  method HandleToggleFavorite(s: AppState, id: string) returns (r: AppState)
    ensures r == s.(favorites := Favorites.Toggled(s.favorites, id))
  {
    var next := Favorites.ToggleFavorite(s.favorites, id);
    r := s.(favorites := next);
  }

  /** `handleSearch(q)`: the query becomes `q` and the home view is shown; nothing else changes. */
  function HandleSearch(s: AppState, q: string): (r: AppState)
    ensures r.searchQuery == q && r.view == Home
    ensures r.favorites == s.favorites && r.filters == s.filters
  {
    s.(searchQuery := q, view := Home)
  }

  /** The "No properties found" panel, with its reset button, shows when the listing is empty. */
  predicate ShowsEmptyState(catalog: seq<Listing>, s: AppState)
  {
    |Matching(catalog, s.searchQuery, s.filters)| == 0
  }

  /** The empty state's "Clear Filters": no query and the initial record again. */
  function ResetFromEmptyState(s: AppState): (r: AppState)
    ensures r.searchQuery == Initial.searchQuery && r.filters == Initial.filters
    ensures r.filters == ClearFilters(s.filters)
    ensures r.view == s.view && r.favorites == s.favorites
  {
    s.(searchQuery := "", filters := Defaults)
  }

  /** After the reset, the listing holds every in-range entry; it is empty again only if none is. */
  lemma ResetListsInRange(catalog: seq<Listing>, s: AppState)
    ensures forall p :: p in Matching(catalog, "", ResetFromEmptyState(s).filters) <==>
              p in catalog && 0 <= p.price <= 50000000 && 0 <= p.area <= 10000
  {
    forall p
      ensures p in Matching(catalog, "", ResetFromEmptyState(s).filters) <==>
              p in catalog && 0 <= p.price <= 50000000 && 0 <= p.area <= 10000
    {
      DefaultsKeepInRange(catalog, p);
    }
  }

  /** After the reset, "No properties found" shows again exactly when no entry lies in the default range. */
  lemma EmptyAfterResetMeansNoneInRange(catalog: seq<Listing>, s: AppState)
    ensures ShowsEmptyState(catalog, ResetFromEmptyState(s)) <==>
      forall p :: p in catalog ==> !(0 <= p.price <= 50000000 && 0 <= p.area <= 10000)
  {
    ResetListsInRange(catalog, s);
    var listing := Matching(catalog, "", ResetFromEmptyState(s).filters);
    if |listing| > 0 {
      assert listing[0] in listing;
    }
  }
}
