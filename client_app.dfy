/**
 * The client front end's App: the listing pipeline, the favourites subset,
 * the "clear filters" reset and the test that shows "Clear all filters".
 */
module ClientApp {
  import opened Wrappers
  import opened JsText
  import opened Seqs
  import opened Catalog
  import opened Select
  import FilterPanel
  import Favorites

  // -----------------------------------------------------------------------
  // The passes of the pipeline

  /** The free-text search: the lower-cased term occurs in the title, location or city. */
  predicate SearchHit(p: Property, term: string)
  {
    var q := Lower(term);
    Includes(Lower(p.title), q) || Includes(Lower(p.location), q) || Includes(Lower(p.city), q)
  }

  /** The city filter: a case-insensitive substring test. */
  predicate CityHit(p: Property, city: string)
  {
    Includes(Lower(p.city), Lower(city))
  }

  /** The type filter: exact equality with the kind's literal. */
  predicate TypeHit(p: Property, t: string)
  {
    TypeName(p.propertyType) == t
  }

  /**
   * The first `stage` passes of the pipeline, each one holding trivially when
   * its field is empty: search, city, type, minimum and maximum price,
   * bedrooms, minimum and maximum area.
   */
  predicate MatchesUpTo(p: Property, term: string, f: FilterState, stage: nat)
  {
    && (stage > 0 && term != "" ==> SearchHit(p, term))
    && (stage > 1 && f.city != "" ==> CityHit(p, f.city))
    && (stage > 2 && f.propertyType != "" ==> TypeHit(p, f.propertyType))
    && (stage > 3 && f.minPrice != "" ==> AtLeast(p.price, ParseInt(f.minPrice)))
    && (stage > 4 && f.maxPrice != "" ==> AtMost(p.price, ParseInt(f.maxPrice)))
    && (stage > 5 && f.bedrooms != "" ==> AtLeast(p.bedrooms, ParseInt(f.bedrooms)))
    && (stage > 6 && f.minArea != "" ==> AtLeast(p.area, ParseInt(f.minArea)))
    && (stage > 7 && f.maxArea != "" ==> AtMost(p.area, ParseInt(f.maxArea)))
  }

  /** The conjunction of every pass whose field is non-empty. */
  predicate Matches(p: Property, term: string, f: FilterState)
  {
    MatchesUpTo(p, term, f, 8)
  }

  function MatchPred(term: string, f: FilterState): Property -> bool
  {
    (p: Property) => Matches(p, term, f)
  }

  function UpTo(term: string, f: FilterState, stage: nat): Property -> bool
  {
    (p: Property) => MatchesUpTo(p, term, f, stage)
  }

  /**
   * The listing as one combined pass over the catalog: the entries that
   * satisfy every active constraint, in catalog order.
   */
  function Matching(catalog: seq<Property>, term: string, f: FilterState): (r: seq<Property>)
    ensures IsSubsequence(r, catalog)
    ensures forall p :: p in r <==> p in catalog && Matches(p, term, f)
  {
    FilterIsSubsequence(catalog, MatchPred(term, f));
    FilterMembers(catalog, MatchPred(term, f));
    Filter(catalog, MatchPred(term, f))
  }

  // The passes as the App writes them, one closure per `filter` call.
  function SearchPass(term: string): Property -> bool { (p: Property) => SearchHit(p, term) }
  function CityPass(city: string): Property -> bool { (p: Property) => CityHit(p, city) }
  function TypePass(t: string): Property -> bool { (p: Property) => TypeHit(p, t) }
  function MinPricePass(v: string): Property -> bool { (p: Property) => AtLeast(p.price, ParseInt(v)) }
  function MaxPricePass(v: string): Property -> bool { (p: Property) => AtMost(p.price, ParseInt(v)) }
  function BedroomsPass(v: string): Property -> bool { (p: Property) => AtLeast(p.bedrooms, ParseInt(v)) }
  function MinAreaPass(v: string): Property -> bool { (p: Property) => AtLeast(p.area, ParseInt(v)) }
  function MaxAreaPass(v: string): Property -> bool { (p: Property) => AtMost(p.area, ParseInt(v)) }

  /** Whether pass number `stage` runs: its field is non-empty. */
  function Active(term: string, f: FilterState, stage: nat): bool
  {
    match stage
    case 0 => term != ""
    case 1 => f.city != ""
    case 2 => f.propertyType != ""
    case 3 => f.minPrice != ""
    case 4 => f.maxPrice != ""
    case 5 => f.bedrooms != ""
    case 6 => f.minArea != ""
    case _ => f.maxArea != ""
  }

  /** The predicate pass number `stage` filters by. */
  function PassAt(term: string, f: FilterState, stage: nat): Property -> bool
  {
    match stage
    case 0 => SearchPass(term)
    case 1 => CityPass(f.city)
    case 2 => TypePass(f.propertyType)
    case 3 => MinPricePass(f.minPrice)
    case 4 => MaxPricePass(f.maxPrice)
    case 5 => BedroomsPass(f.bedrooms)
    case 6 => MinAreaPass(f.minArea)
    case _ => MaxAreaPass(f.maxArea)
  }

  lemma StageStep(p: Property, term: string, f: FilterState, stage: nat)
    requires stage < 8
    ensures MatchesUpTo(p, term, f, stage + 1) == (MatchesUpTo(p, term, f, stage) && (!Active(term, f, stage) || PassAt(term, f, stage)(p)))
  {
    match stage
    case 0 =>
    case 1 =>
    case 2 =>
    case 3 =>
    case 4 =>
    case 5 =>
    case 6 =>
    case 7 =>
  }

  /** Running pass `stage` when its field is set turns the first `stage` passes into the first `stage + 1`. */
  lemma PassNarrows(catalog: seq<Property>, term: string, f: FilterState, stage: nat, before: seq<Property>)
    requires stage < 8
    requires before == Filter(catalog, UpTo(term, f, stage))
    ensures (if Active(term, f, stage) then Filter(before, PassAt(term, f, stage)) else before)
         == Filter(catalog, UpTo(term, f, stage + 1))
  {
    var keep := PassAt(term, f, stage);
    forall x | x in catalog
      ensures UpTo(term, f, stage + 1)(x) == (UpTo(term, f, stage)(x) && (!Active(term, f, stage) || keep(x)))
    {
      assert UpTo(term, f, stage + 1)(x) == MatchesUpTo(x, term, f, stage + 1);
      assert UpTo(term, f, stage)(x) == MatchesUpTo(x, term, f, stage);
      StageStep(x, term, f, stage);
    }
    ConditionalPass(catalog, before, UpTo(term, f, stage), Active(term, f, stage), keep, UpTo(term, f, stage + 1));
  }

  /** The list after the first `stage` guarded passes, each run on the output of the one before. */
  function Staged(catalog: seq<Property>, term: string, f: FilterState, stage: nat): seq<Property>
    requires stage <= 8
  {
    if stage == 0 then catalog
    else
      var before := Staged(catalog, term, f, stage - 1);
      if Active(term, f, stage - 1) then Filter(before, PassAt(term, f, stage - 1)) else before
  }

  /** Pass after pass, the chain keeps exactly the entries that meet every pass run so far. */
  lemma {:induction false} StagedIsOnePass(catalog: seq<Property>, term: string, f: FilterState, stage: nat)
    requires stage <= 8
    ensures Staged(catalog, term, f, stage) == Filter(catalog, UpTo(term, f, stage))
  {
    if stage == 0 {
      FilterKeepsAll(catalog, UpTo(term, f, 0));
    } else {
      StagedIsOnePass(catalog, term, f, stage - 1);
      PassNarrows(catalog, term, f, stage - 1, Staged(catalog, term, f, stage - 1));
    }
  }

  /** The chain of all eight passes is the single combined pass. */
  lemma StagedIsMatching(catalog: seq<Property>, term: string, f: FilterState)
    ensures Staged(catalog, term, f, 8) == Matching(catalog, term, f)
  {
    StagedIsOnePass(catalog, term, f, 8);
    FilterExt(catalog, UpTo(term, f, 8), MatchPred(term, f));
  }

  /**
   * `filteredProperties`: starting from the catalog, each non-empty field
   * narrows the list with one more `filter` pass, in the App's order.
   */
  method FilteredProperties(catalog: seq<Property>, term: string, f: FilterState) returns (filtered: seq<Property>)
    ensures filtered == Matching(catalog, term, f)
  {
    filtered := catalog;
    if term != "" {
      filtered := Filter(filtered, SearchPass(term));
    }
    assert filtered == Staged(catalog, term, f, 1);
    if f.city != "" {
      filtered := Filter(filtered, CityPass(f.city));
    }
    assert filtered == Staged(catalog, term, f, 2);
    if f.propertyType != "" {
      filtered := Filter(filtered, TypePass(f.propertyType));
    }
    assert filtered == Staged(catalog, term, f, 3);
    if f.minPrice != "" {
      filtered := Filter(filtered, MinPricePass(f.minPrice));
    }
    assert filtered == Staged(catalog, term, f, 4);
    if f.maxPrice != "" {
      filtered := Filter(filtered, MaxPricePass(f.maxPrice));
    }
    assert filtered == Staged(catalog, term, f, 5);
    if f.bedrooms != "" {
      filtered := Filter(filtered, BedroomsPass(f.bedrooms));
    }
    assert filtered == Staged(catalog, term, f, 6);
    if f.minArea != "" {
      filtered := Filter(filtered, MinAreaPass(f.minArea));
    }
    assert filtered == Staged(catalog, term, f, 7);
    if f.maxArea != "" {
      filtered := Filter(filtered, MaxAreaPass(f.maxArea));
    }
    assert filtered == Staged(catalog, term, f, 8);
    StagedIsMatching(catalog, term, f);
  }

  // -----------------------------------------------------------------------
  // What the listing promises

  /** The seven declared fields are all empty. */
  predicate NoFieldSet(f: FilterState)
  {
    f.city == "" && f.propertyType == "" && f.minPrice == "" && f.maxPrice == ""
    && f.bedrooms == "" && f.minArea == "" && f.maxArea == ""
  }

  /** With no search term and no field set, the listing is the catalog, in its order. */
  lemma NoConstraintKeepsAll(catalog: seq<Property>, f: FilterState)
    requires NoFieldSet(f)
    ensures Matching(catalog, "", f) == catalog
  {
    FilterKeepsAll(catalog, MatchPred("", f));
  }

  /** A search alone keeps exactly the entries whose title, location or city contain the term, ignoring case. */
  lemma SearchAlone(catalog: seq<Property>, term: string, f: FilterState, p: Property)
    requires term != "" && NoFieldSet(f)
    ensures p in Matching(catalog, term, f) <==>
              && p in catalog
              && (|| Includes(Lower(p.title), Lower(term))
                  || Includes(Lower(p.location), Lower(term))
                  || Includes(Lower(p.city), Lower(term)))
  {
    assert p in Matching(catalog, term, f) <==> p in catalog && Matches(p, term, f);
    assert Matches(p, term, f) == SearchHit(p, term);
  }

  /** Two search terms that agree once lower-cased select the same listing. */
  lemma SearchIgnoresCase(catalog: seq<Property>, term: string, other: string, f: FilterState)
    requires Lower(term) == Lower(other)
    ensures Matching(catalog, term, f) == Matching(catalog, other, f)
  {
    assert |term| == |Lower(term)| == |Lower(other)| == |other|;
    FilterExt(catalog, MatchPred(term, f), MatchPred(other, f));
  }

  /** Two city fields that agree once lower-cased select the same listing. */
  lemma CityIgnoresCase(catalog: seq<Property>, term: string, f: FilterState, city: string)
    requires Lower(city) == Lower(f.city)
    ensures Matching(catalog, term, f.(city := city)) == Matching(catalog, term, f)
  {
    assert |city| == |Lower(city)| == |Lower(f.city)| == |f.city|;
    FilterExt(catalog, MatchPred(term, f.(city := city)), MatchPred(term, f));
  }

  /** A city field keeps the entries whose city contains it, ignoring case. */
  lemma CityIsSubstring(catalog: seq<Property>, f: FilterState, p: Property)
    requires f.city != "" && NoFieldSet(f.(city := ""))
    ensures p in Matching(catalog, "", f) <==>
              p in catalog && exists i :: OccursAt(Lower(p.city), Lower(f.city), i)
  {
    assert p in Matching(catalog, "", f) <==> p in catalog && Matches(p, "", f);
    assert Matches(p, "", f) == CityHit(p, f.city);
    IncludesAt(Lower(p.city), Lower(f.city));
  }

  /** A type field keeps the entries of exactly that kind. */
  lemma TypeIsExact(catalog: seq<Property>, f: FilterState, t: PropertyType, p: Property)
    requires f.propertyType == TypeName(t) && NoFieldSet(f.(propertyType := ""))
    ensures p in Matching(catalog, "", f) <==> p in catalog && p.propertyType == t
  {
    assert Matches(p, "", f) == TypeHit(p, f.propertyType);
    TypeNameInjective(p.propertyType, t);
  }

  /** A field set to the decimal text of `n` bounds that attribute by `n`, both ends included. */
  lemma RangesAreInclusive(catalog: seq<Property>, lo: int, hi: int, small: int, large: int, p: Property)
    ensures p in Matching(catalog, "", EmptyFilters.(minPrice := IntToString(lo), maxPrice := IntToString(hi),
                                                    minArea := IntToString(small), maxArea := IntToString(large)))
        <==> p in catalog && lo <= p.price <= hi && small <= p.area <= large
  {
    IntToStringReads(lo);
    IntToStringReads(hi);
    IntToStringReads(small);
    IntToStringReads(large);
    BoundsOnly(catalog, IntToString(lo), IntToString(hi), IntToString(small), IntToString(large), p);
  }

  /** With only the four bounds set, the listing is the entries within all four. */
  lemma BoundsOnly(catalog: seq<Property>, a: string, b: string, c: string, d: string, p: Property)
    requires a != "" && b != "" && c != "" && d != ""
    ensures p in Matching(catalog, "", EmptyFilters.(minPrice := a, maxPrice := b, minArea := c, maxArea := d))
        <==> p in catalog && AtLeast(p.price, ParseInt(a)) && AtMost(p.price, ParseInt(b))
                         && AtLeast(p.area, ParseInt(c)) && AtMost(p.area, ParseInt(d))
  {
    var f := EmptyFilters.(minPrice := a, maxPrice := b, minArea := c, maxArea := d);
    assert p in Matching(catalog, "", f) <==> p in catalog && Matches(p, "", f);
  }

  /** Bedroom option `i` of the panel keeps exactly the entries with at least `i` bedrooms. */
  lemma BedroomChoiceIsAtLeast(catalog: seq<Property>, i: int, p: Property)
    requires 1 <= i < |FilterPanel.BedroomChoices|
    ensures p in Matching(catalog, "", EmptyFilters.(bedrooms := FilterPanel.BedroomChoices[i].value))
        <==> p in catalog && p.bedrooms >= i
  {
    FilterPanel.BedroomChoicesText(i);
    FilterPanel.BedroomChoicesRead(i);
  }

  /** `parseInt` reads the integer prefix: a bound typed as "1.5" acts as 1. */
  lemma FractionReadsAsPrefix()
    ensures ParseInt("1.5") == Some(1)
  {
    TrimStartOfUnspaced("1.5");
    assert SplitSign("1.5") == (false, "1.5");
    assert DigitPrefix("1.5") == "1";
    assert DigitsValue("1") == 1;
  }

  /** A numeric field whose text does not start with a number matches nothing. */
  lemma UnreadableBoundEmpties(catalog: seq<Property>, term: string, f: FilterState)
    requires || (f.minPrice != "" && ParseInt(f.minPrice) == None)
             || (f.maxPrice != "" && ParseInt(f.maxPrice) == None)
             || (f.bedrooms != "" && ParseInt(f.bedrooms) == None)
             || (f.minArea != "" && ParseInt(f.minArea) == None)
             || (f.maxArea != "" && ParseInt(f.maxArea) == None)
    ensures Matching(catalog, term, f) == []
  {
    FilterDropsAll(catalog, MatchPred(term, f));
  }

  /** Any two passes of the chain may run in either order. */
  lemma PassesCommute(before: seq<Property>, term: string, f: FilterState, i: nat, j: nat)
    ensures Filter(Filter(before, PassAt(term, f, i)), PassAt(term, f, j))
         == Filter(Filter(before, PassAt(term, f, j)), PassAt(term, f, i))
  {
    FilterCommute(before, PassAt(term, f, i), PassAt(term, f, j));
  }

  /** Filling in one more empty field, or the empty search box, can only shorten the listing. */
  lemma AddingConstraintNarrows(catalog: seq<Property>, term: string, f: FilterState, k: FilterPanel.FilterKey, v: string)
    requires FilterPanel.Lookup(f, k) == Some("")
    ensures IsSubsequence(Matching(catalog, term, FilterPanel.HandleFilterChange(f, k, v)), Matching(catalog, term, f))
  {
    var g := FilterPanel.HandleFilterChange(f, k, v);
    assert forall x :: x in catalog && MatchPred(term, g)(x) ==> MatchPred(term, f)(x);
    FilterMonotone(catalog, MatchPred(term, f), MatchPred(term, g));
  }

  lemma SearchingNarrows(catalog: seq<Property>, term: string, f: FilterState)
    ensures IsSubsequence(Matching(catalog, term, f), Matching(catalog, "", f))
  {
    FilterMonotone(catalog, MatchPred("", f), MatchPred(term, f));
  }

  /** The furnished, parking and rating keys the panel writes are never read by the listing. */
  lemma ExtraKeysIgnored(catalog: seq<Property>, term: string, f: FilterState, k: FilterPanel.FilterKey, v: string)
    requires k == FilterPanel.FurnishedKey || k == FilterPanel.ParkingKey || k == FilterPanel.RatingKey
    ensures Matching(catalog, term, FilterPanel.HandleFilterChange(f, k, v)) == Matching(catalog, term, f)
  {
    FilterExt(catalog, MatchPred(term, FilterPanel.HandleFilterChange(f, k, v)), MatchPred(term, f));
  }

  /** No option of the furnished, parking or rating selects changes the listing. */
  lemma ExtraChoicesChangeNothing(catalog: seq<Property>, term: string, f: FilterState)
    ensures forall c :: c in FilterPanel.FurnishedChoices ==>
      Matching(catalog, term, FilterPanel.HandleFilterChange(f, FilterPanel.FurnishedKey, c.value)) == Matching(catalog, term, f)
    ensures forall c :: c in FilterPanel.ParkingChoices ==>
      Matching(catalog, term, FilterPanel.HandleFilterChange(f, FilterPanel.ParkingKey, c.value)) == Matching(catalog, term, f)
    ensures forall c :: c in FilterPanel.RatingChoices ==>
      Matching(catalog, term, FilterPanel.HandleFilterChange(f, FilterPanel.RatingKey, c.value)) == Matching(catalog, term, f)
  {
    forall c | c in FilterPanel.FurnishedChoices
      ensures Matching(catalog, term, FilterPanel.HandleFilterChange(f, FilterPanel.FurnishedKey, c.value)) == Matching(catalog, term, f)
    {
      ExtraKeysIgnored(catalog, term, f, FilterPanel.FurnishedKey, c.value);
    }
    forall c | c in FilterPanel.ParkingChoices
      ensures Matching(catalog, term, FilterPanel.HandleFilterChange(f, FilterPanel.ParkingKey, c.value)) == Matching(catalog, term, f)
    {
      ExtraKeysIgnored(catalog, term, f, FilterPanel.ParkingKey, c.value);
    }
    forall c | c in FilterPanel.RatingChoices
      ensures Matching(catalog, term, FilterPanel.HandleFilterChange(f, FilterPanel.RatingKey, c.value)) == Matching(catalog, term, f)
    {
      ExtraKeysIgnored(catalog, term, f, FilterPanel.RatingKey, c.value);
    }
  }

  // -----------------------------------------------------------------------
  // Favourites and the rest of the App's state

  /** `favoriteProperties`: the catalog entries whose id is in the set, in catalog order. */
  function FavoriteProperties(catalog: seq<Property>, favorites: set<int>): (r: seq<Property>)
    ensures IsSubsequence(r, catalog)
    ensures forall p :: p in r <==> p in catalog && p.id in favorites
  {
    var isFavorite := (p: Property) => p.id in favorites;
    FilterIsSubsequence(catalog, isFavorite);
    FilterMembers(catalog, isFavorite);
    Filter(catalog, isFavorite)
  }

  /** The parts of the App's state the listing depends on. */
  datatype AppState = AppState(searchTerm: string, filters: FilterState, favorites: set<int>)

  /** `toggleFavorite(id)`: the favourites set is copied and `id` deleted or added. */
  method ToggleFavorite(s: AppState, id: int) returns (r: AppState)
    ensures r == s.(favorites := Favorites.Toggled(s.favorites, id))
  {
    var next := Favorites.ToggleFavorite(s.favorites, id);
    r := s.(favorites := next);
  }

  /** `clearFilters`: the seven fields and the search term become empty; the extra keys disappear. */
  function ClearFilters(s: AppState): (r: AppState)
    ensures r.searchTerm == "" && NoFieldSet(r.filters)
    ensures r.filters.furnished == None && r.filters.parking == None && r.filters.rating == None
    ensures r.favorites == s.favorites
  {
    s.(searchTerm := "", filters := EmptyFilters)
  }

  /** `Object.values(filters)`: the seven declared values and those of whichever extra keys are present; `.some()` does not depend on their order. */
  function FilterValues(f: FilterState): seq<string>
  {
    [f.city, f.propertyType, f.minPrice, f.maxPrice, f.bedrooms, f.minArea, f.maxArea]
    + (if f.furnished.Some? then [f.furnished.value] else [])
    + (if f.parking.Some? then [f.parking.value] else [])
    + (if f.rating.Some? then [f.rating.value] else [])
  }

  /** The "Clear all filters" button shows when there is a search term or some value of the record is not `''`. */
  predicate ShowsClearAll(s: AppState)
  {
    s.searchTerm != "" || exists i :: 0 <= i < |FilterValues(s.filters)| && FilterValues(s.filters)[i] != ""
  }

  /** The button shows exactly when the search term or some key the panel writes is non-empty. */
  lemma ShowsClearAllExactly(s: AppState)
    ensures ShowsClearAll(s) <==>
              s.searchTerm != "" || exists k :: FilterPanel.Lookup(s.filters, k).Some? && FilterPanel.Lookup(s.filters, k).value != ""
  {
    var f := s.filters;
    var vs := FilterValues(f);
    if exists k :: FilterPanel.Lookup(f, k).Some? && FilterPanel.Lookup(f, k).value != "" {
      var k :| FilterPanel.Lookup(f, k).Some? && FilterPanel.Lookup(f, k).value != "";
      var v := FilterPanel.Lookup(f, k).value;
      assert v in vs by {
        match k
        case FurnishedKey => assert vs[7] == v;
        case ParkingKey =>
          var at := if f.furnished.Some? then 8 else 7;
          assert vs[at] == v;
        case RatingKey =>
          var at := 7 + (if f.furnished.Some? then 1 else 0) + (if f.parking.Some? then 1 else 0);
          assert vs[at] == v;
        case _ =>
      }
    }
    if exists i :: 0 <= i < |vs| && vs[i] != "" {
      var i :| 0 <= i < |vs| && vs[i] != "";
      ValueHasKey(f, i);
    }
  }

  /** Every value of the record is held by some key. */
  lemma ValueHasKey(f: FilterState, i: int)
    requires 0 <= i < |FilterValues(f)|
    ensures exists k :: FilterPanel.Lookup(f, k) == Some(FilterValues(f)[i])
  {
    var vs := FilterValues(f);
    if i < 7 {
      var keys := [FilterPanel.CityKey, FilterPanel.TypeKey, FilterPanel.MinPriceKey, FilterPanel.MaxPriceKey,
                   FilterPanel.BedroomsKey, FilterPanel.MinAreaKey, FilterPanel.MaxAreaKey];
      assert FilterPanel.Lookup(f, keys[i]) == Some(vs[i]);
    } else if f.furnished.Some? && i == 7 {
      assert FilterPanel.Lookup(f, FilterPanel.FurnishedKey) == Some(vs[i]);
    } else if f.parking.Some? && i == 7 + (if f.furnished.Some? then 1 else 0) {
      assert FilterPanel.Lookup(f, FilterPanel.ParkingKey) == Some(vs[i]);
    } else {
      assert FilterPanel.Lookup(f, FilterPanel.RatingKey) == Some(vs[i]);
    }
  }

  /** When the button is hidden the listing is already the whole catalog. */
  lemma HiddenButtonMeansFullListing(catalog: seq<Property>, s: AppState)
    requires !ShowsClearAll(s)
    ensures Matching(catalog, s.searchTerm, s.filters) == catalog
  {
    var vs := FilterValues(s.filters);
    assert vs[0] == "" && vs[1] == "" && vs[2] == "" && vs[3] == "" && vs[4] == "" && vs[5] == "" && vs[6] == "";
    NoConstraintKeepsAll(catalog, s.filters);
  }

  /** After clearing, the button is hidden and the listing is the whole catalog. */
  lemma ClearShowsEverything(catalog: seq<Property>, s: AppState)
    ensures !ShowsClearAll(ClearFilters(s))
    ensures Matching(catalog, ClearFilters(s).searchTerm, ClearFilters(s).filters) == catalog
  {
    assert FilterValues(EmptyFilters) == ["", "", "", "", "", "", ""];
    NoConstraintKeepsAll(catalog, EmptyFilters);
  }
}
