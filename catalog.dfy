/** The listing record and the filter record of the client front end. */
module Catalog {
  import opened Wrappers

  /** The closed set of property kinds. */
  datatype PropertyType = Apartment | House | Villa | Studio

  /** The string literal each kind is spelled with. */
  function TypeName(t: PropertyType): string
  {
    match t
    case Apartment => "apartment"
    case House => "house"
    case Villa => "villa"
    case Studio => "studio"
  }

  lemma TypeNameInjective(s: PropertyType, t: PropertyType)
    ensures TypeName(s) == TypeName(t) <==> s == t
  {
  }

  datatype Property = Property(
    id: int,
    title: string,
    location: string,
    city: string,
    price: int,
    propertyType: PropertyType,
    bedrooms: int,
    bathrooms: int,
    area: int,
    image: string,
    description: string,
    amenities: seq<string>,
    yearBuilt: int,
    parking: bool,
    furnished: bool)

  /** Catalog identifiers are unique, as they are in the seed data. */
  predicate UniqueIds(ps: seq<Property>)
  {
    forall i, j :: 0 <= i < j < |ps| ==> ps[i].id != ps[j].id
  }

  /**
   * The filter record.  Its seven declared keys always hold a string, `''`
   * meaning "no constraint".  The filter panel also writes the keys
   * `furnished`, `parking` and `rating`, which the declared type lacks: they
   * are absent (`None`) until the panel first sets them.
   */
  datatype FilterState = FilterState(
    city: string,
    propertyType: string,
    minPrice: string,
    maxPrice: string,
    bedrooms: string,
    minArea: string,
    maxArea: string,
    furnished: Option<string>,
    parking: Option<string>,
    rating: Option<string>)

  /** The record the App starts with and clears back to. */
  const EmptyFilters := FilterState("", "", "", "", "", "", "", None, None, None)
}
