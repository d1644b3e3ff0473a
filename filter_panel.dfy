/** The client filter panel: single-key updates of the filter record and its option lists. */
module FilterPanel {
  import opened Wrappers
  import opened JsText
  import opened Catalog
  import opened Select

  /** The keys the panel writes, the seven declared ones and three extra. */
  datatype FilterKey =
    | CityKey | TypeKey | MinPriceKey | MaxPriceKey | BedroomsKey | MinAreaKey | MaxAreaKey
    | FurnishedKey | ParkingKey | RatingKey

  /** `filters[key]`, `None` when the key is absent from the record. */
  function Lookup(f: FilterState, k: FilterKey): Option<string>
  {
    match k
    case CityKey => Some(f.city)
    case TypeKey => Some(f.propertyType)
    case MinPriceKey => Some(f.minPrice)
    case MaxPriceKey => Some(f.maxPrice)
    case BedroomsKey => Some(f.bedrooms)
    case MinAreaKey => Some(f.minArea)
    case MaxAreaKey => Some(f.maxArea)
    case FurnishedKey => f.furnished
    case ParkingKey => f.parking
    case RatingKey => f.rating
  }

  /** `handleFilterChange(key, value)`: the record `{...filters, [key]: value}`. */
  function HandleFilterChange(f: FilterState, k: FilterKey, v: string): (r: FilterState)
    ensures Lookup(r, k) == Some(v)
    ensures forall j :: j != k ==> Lookup(r, j) == Lookup(f, j)
  {
    match k
    case CityKey => f.(city := v)
    case TypeKey => f.(propertyType := v)
    case MinPriceKey => f.(minPrice := v)
    case MaxPriceKey => f.(maxPrice := v)
    case BedroomsKey => f.(bedrooms := v)
    case MinAreaKey => f.(minArea := v)
    case MaxAreaKey => f.(maxArea := v)
    case FurnishedKey => f.(furnished := Some(v))
    case ParkingKey => f.(parking := Some(v))
    case RatingKey => f.(rating := Some(v))
  }

  /** A record is determined by what its keys hold. */
  lemma LookupDetermines(f: FilterState, g: FilterState)
    requires forall k :: Lookup(f, k) == Lookup(g, k)
    ensures f == g
  {
    assert Lookup(f, CityKey) == Lookup(g, CityKey);
    assert Lookup(f, TypeKey) == Lookup(g, TypeKey);
    assert Lookup(f, MinPriceKey) == Lookup(g, MinPriceKey);
    assert Lookup(f, MaxPriceKey) == Lookup(g, MaxPriceKey);
    assert Lookup(f, BedroomsKey) == Lookup(g, BedroomsKey);
    assert Lookup(f, MinAreaKey) == Lookup(g, MinAreaKey);
    assert Lookup(f, MaxAreaKey) == Lookup(g, MaxAreaKey);
    assert Lookup(f, FurnishedKey) == Lookup(g, FurnishedKey);
    assert Lookup(f, ParkingKey) == Lookup(g, ParkingKey);
    assert Lookup(f, RatingKey) == Lookup(g, RatingKey);
  }

  /** Repeating an update changes nothing more. */
  lemma ChangeIdempotent(f: FilterState, k: FilterKey, v: string)
    ensures HandleFilterChange(HandleFilterChange(f, k, v), k, v) == HandleFilterChange(f, k, v)
  {
    var once := HandleFilterChange(f, k, v);
    LookupDetermines(HandleFilterChange(once, k, v), once);
  }

  /** Updates of two different keys commute. */
  lemma ChangesCommute(f: FilterState, j: FilterKey, k: FilterKey, u: string, v: string)
    requires j != k
    ensures HandleFilterChange(HandleFilterChange(f, j, u), k, v)
         == HandleFilterChange(HandleFilterChange(f, k, v), j, u)
  {
    LookupDetermines(HandleFilterChange(HandleFilterChange(f, j, u), k, v),
                     HandleFilterChange(HandleFilterChange(f, k, v), j, u));
  }

  /** Of two writes to one key, the last one wins. */
  lemma LastWriteWins(f: FilterState, k: FilterKey, u: string, v: string)
    ensures HandleFilterChange(HandleFilterChange(f, k, u), k, v) == HandleFilterChange(f, k, v)
  {
    LookupDetermines(HandleFilterChange(HandleFilterChange(f, k, u), k, v), HandleFilterChange(f, k, v));
  }

  // -----------------------------------------------------------------------
  // Option lists of the select controls

  const TypeChoices: seq<Choice> := [
    Choice("", "All Types"), Choice("apartment", "Apartment"), Choice("house", "House"),
    Choice("villa", "Villa"), Choice("studio", "Studio")]

  const BedroomChoices: seq<Choice> := [
    Choice("", "Any"), Choice("1", "1+"), Choice("2", "2+"), Choice("3", "3+"), Choice("4", "4+")]

  const FurnishedChoices: seq<Choice> := [
    Choice("", "Any"), Choice("true", "Furnished"), Choice("false", "Unfurnished")]

  const ParkingChoices: seq<Choice> := [
    Choice("", "Any"), Choice("true", "Available"), Choice("false", "Not Available")]

  const RatingChoices: seq<Choice> := [
    Choice("", "Any Rating"), Choice("4", "4+ Stars"), Choice("4.5", "4.5+ Stars"), Choice("4.8", "4.8+ Stars")]

  /** The type options are "all" followed by exactly the four kinds of property. */
  lemma TypeChoicesAreTheKinds()
    ensures TypeChoices[0].value == ""
    ensures forall t: PropertyType :: exists i :: 1 <= i < |TypeChoices| && TypeChoices[i].value == TypeName(t)
    ensures forall i :: 1 <= i < |TypeChoices| ==> exists t: PropertyType :: TypeChoices[i].value == TypeName(t)
  {
    assert TypeChoices[1].value == TypeName(Apartment);
    assert TypeChoices[2].value == TypeName(House);
    assert TypeChoices[3].value == TypeName(Villa);
    assert TypeChoices[4].value == TypeName(Studio);
  }

  /** Bedroom option `i` holds the decimal text of `i` and is captioned "i+". */
  lemma BedroomChoicesText(i: int)
    requires 1 <= i < |BedroomChoices|
    ensures BedroomChoices[i].value == IntToString(i)
    ensures BedroomChoices[i].text == IntToString(i) + "+"
  {
    if i == 1 {
      assert BedroomChoices[1] == Choice("1", "1+") && IntToString(1) == "1";
    } else if i == 2 {
      assert BedroomChoices[2] == Choice("2", "2+") && IntToString(2) == "2";
    } else if i == 3 {
      assert BedroomChoices[3] == Choice("3", "3+") && IntToString(3) == "3";
    } else {
      assert BedroomChoices[4] == Choice("4", "4+") && IntToString(4) == "4";
    }
  }

  /** Bedroom option `i` reads as the number `i`. */
  lemma BedroomChoicesRead(i: int)
    requires 1 <= i < |BedroomChoices|
    ensures ParseInt(BedroomChoices[i].value) == Some(i)
  {
    BedroomChoicesText(i);
    IntToStringReads(i);
  }
}
