/**
 * The filter panel of the `src` front end: its record with numeric bounds,
 * the reset record, single-key updates, the two price inputs and the option
 * lists of its selects.
 */
module SearchFilters {
  import opened Wrappers
  import opened JsText
  import opened Select

  /** The record; the four bounds are JS numbers, `None` standing for NaN. */
  datatype Filters = Filters(
    city: string,
    propertyType: string,
    minPrice: Option<int>,
    maxPrice: Option<int>,
    bedrooms: string,
    minArea: Option<int>,
    maxArea: Option<int>)

  /** The sentinel meaning "no upper price limit". */
  const NoMaxPrice := 50000000

  /** The default upper area limit. */
  const NoMaxArea := 10000

  /** The App's initial record, which `clearFilters` restores. */
  const Defaults := Filters("", "", Some(0), Some(NoMaxPrice), "", Some(0), Some(NoMaxArea))

  /** `clearFilters`: every text field empty, the bounds at 0, 50000000, 0 and 10000. */
  function ClearFilters(f: Filters): (r: Filters)
    ensures r.city == "" && r.propertyType == "" && r.bedrooms == ""
    ensures r.minPrice == Some(0) && r.maxPrice == Some(50000000)
    ensures r.minArea == Some(0) && r.maxArea == Some(10000)
  {
    Defaults
  }

  /** Clearing twice is clearing once. */
  lemma ClearIdempotent(f: Filters)
    ensures ClearFilters(ClearFilters(f)) == ClearFilters(f)
  {
  }

  // -----------------------------------------------------------------------
  // Single-key updates

  datatype Key = CityKey | TypeKey | MinPriceKey | MaxPriceKey | BedroomsKey | MinAreaKey | MaxAreaKey

  /** What a key of the record holds: a string or a number. */
  datatype Value = Text(text: string) | Number(number: Option<int>)

  /** `filters[key]`. */
  function Get(f: Filters, k: Key): Value
  {
    match k
    case CityKey => Text(f.city)
    case TypeKey => Text(f.propertyType)
    case MinPriceKey => Number(f.minPrice)
    case MaxPriceKey => Number(f.maxPrice)
    case BedroomsKey => Text(f.bedrooms)
    case MinAreaKey => Number(f.minArea)
    case MaxAreaKey => Number(f.maxArea)
  }

  /** The record type gives the city, type and bedrooms keys strings and the four bounds numbers. */
  predicate Fits(k: Key, v: Value)
  {
    if k == CityKey || k == TypeKey || k == BedroomsKey then v.Text? else v.Number?
  }

  /** `handleFilterChange(key, value)`: the record `{...filters, [key]: value}`. */
  function HandleFilterChange(f: Filters, k: Key, v: Value): (r: Filters)
    requires Fits(k, v)
    ensures Get(r, k) == v
    ensures forall j :: j != k ==> Get(r, j) == Get(f, j)
  {
    match k
    case CityKey => f.(city := v.text)
    case TypeKey => f.(propertyType := v.text)
    case MinPriceKey => f.(minPrice := v.number)
    case MaxPriceKey => f.(maxPrice := v.number)
    case BedroomsKey => f.(bedrooms := v.text)
    case MinAreaKey => f.(minArea := v.number)
    case MaxAreaKey => f.(maxArea := v.number)
  }

  /** A record is determined by what its keys hold. */
  lemma GetDetermines(f: Filters, g: Filters)
    requires forall k :: Get(f, k) == Get(g, k)
    ensures f == g
  {
    assert Get(f, CityKey) == Get(g, CityKey);
    assert Get(f, TypeKey) == Get(g, TypeKey);
    assert Get(f, MinPriceKey) == Get(g, MinPriceKey);
    assert Get(f, MaxPriceKey) == Get(g, MaxPriceKey);
    assert Get(f, BedroomsKey) == Get(g, BedroomsKey);
    assert Get(f, MinAreaKey) == Get(g, MinAreaKey);
    assert Get(f, MaxAreaKey) == Get(g, MaxAreaKey);
  }

  /** Repeating an update changes nothing more. */
  lemma ChangeIdempotent(f: Filters, k: Key, v: Value)
    requires Fits(k, v)
    ensures HandleFilterChange(HandleFilterChange(f, k, v), k, v) == HandleFilterChange(f, k, v)
  {
    GetDetermines(HandleFilterChange(HandleFilterChange(f, k, v), k, v), HandleFilterChange(f, k, v));
  }

  /** Updates of two different keys commute. */
  lemma ChangesCommute(f: Filters, j: Key, k: Key, u: Value, v: Value)
    requires j != k && Fits(j, u) && Fits(k, v)
    ensures HandleFilterChange(HandleFilterChange(f, j, u), k, v)
         == HandleFilterChange(HandleFilterChange(f, k, v), j, u)
  {
    GetDetermines(HandleFilterChange(HandleFilterChange(f, j, u), k, v),
                  HandleFilterChange(HandleFilterChange(f, k, v), j, u));
  }

  /** Of two writes to one key, the last one wins. */
  lemma LastWriteWins(f: Filters, k: Key, u: Value, v: Value)
    requires Fits(k, u) && Fits(k, v)
    ensures HandleFilterChange(HandleFilterChange(f, k, u), k, v) == HandleFilterChange(f, k, v)
  {
    GetDetermines(HandleFilterChange(HandleFilterChange(f, k, u), k, v), HandleFilterChange(f, k, v));
  }

  // -----------------------------------------------------------------------
  // The price inputs

  /** The minimum-price input shows `filters.minPrice || ''`: nothing for 0 and NaN, the number otherwise. */
  function MinPriceText(m: Option<int>): (r: string)
    ensures r == "" <==> m == Some(0) || m == None
  {
    if m == Some(0) || m == None then "" else IntToString(m.value)
  }

  /** Typing `s` in the minimum-price input stores `Number(s)`: a blank box stores 0, typed digits their value. */
  function MinPriceEntry(s: string): (r: Option<int>)
    ensures (forall i :: 0 <= i < |s| ==> IsSpace(s[i])) ==> r == Some(0)
    ensures AllDigits(s) && s != [] ==> r == Some(DigitsValue(s))
  {
    NumberOf(s)
  }

  /** The maximum-price input shows nothing for the sentinel and the number otherwise. */
  function MaxPriceText(m: Option<int>): (r: string)
    ensures r == "" <==> m == Some(NoMaxPrice)
  {
    if m == Some(NoMaxPrice) then "" else if m == None then "NaN" else IntToString(m.value)
  }

  /** Typing `s` in the maximum-price input stores `Number(s) || 50000000`: 0 and NaN fall back to the sentinel. */
  function MaxPriceEntry(s: string): (r: int)
    ensures r != 0
  {
    match NumberOf(s)
    case Some(n) => if n != 0 then n else NoMaxPrice
    case None => NoMaxPrice
  }

  /** Showing a minimum price and typing it back in stores the same number; NaN comes back as 0. */
  lemma MinPriceRoundTrip(m: Option<int>)
    ensures MinPriceEntry(MinPriceText(m)) == if m == None then Some(0) else m
  {
    if m.Some? && m.value != 0 {
      IntToStringReads(m.value);
    }
  }

  /** An empty minimum-price box means 0. */
  lemma EmptyMinPriceIsZero()
    ensures MinPriceEntry("") == Some(0)
  {
  }

  /** An empty box, or a typed 0, stores the sentinel. */
  lemma EmptyOrZeroMaxPriceIsUnlimited()
    ensures MaxPriceEntry("") == NoMaxPrice
    ensures MaxPriceEntry("0") == NoMaxPrice
  {
    ZeroReadsAsZero();
  }

  lemma ZeroReadsAsZero()
    ensures NumberOf("0") == Some(0)
  {
    assert AllDigits("0") && DigitsValue("0") == 0;
  }

  /** Showing a maximum price and typing it back in stores the same number exactly when it is not 0. */
  lemma MaxPriceRoundTrip(m: int)
    ensures MaxPriceEntry(MaxPriceText(Some(m))) == m <==> m != 0
  {
    if m != NoMaxPrice {
      IntToStringReads(m);
    }
  }

  // -----------------------------------------------------------------------
  // The controls of the panel

  /** The five controls, each handing its text to `handleFilterChange`. */
  datatype Control = CitySelect | TypeSelect | BedroomsSelect | MinPriceInput | MaxPriceInput

  /** The record after control `c` reports the text `input`. */
  function OnChange(f: Filters, c: Control, input: string): (r: Filters)
    ensures r.minArea == f.minArea && r.maxArea == f.maxArea
    ensures c == MaxPriceInput ==> r.maxPrice.Some? && r.maxPrice.value != 0
    ensures c != MaxPriceInput ==> r.maxPrice == f.maxPrice
  {
    match c
    case CitySelect => HandleFilterChange(f, CityKey, Text(input))
    case TypeSelect => HandleFilterChange(f, TypeKey, Text(input))
    case BedroomsSelect => HandleFilterChange(f, BedroomsKey, Text(input))
    case MinPriceInput => HandleFilterChange(f, MinPriceKey, Number(MinPriceEntry(input)))
    case MaxPriceInput => HandleFilterChange(f, MaxPriceKey, Number(Some(MaxPriceEntry(input))))
  }

  /** No sequence of edits in the panel moves the area bounds. */
  lemma {:induction false} EditsKeepArea(f: Filters, edits: seq<(Control, string)>)
    ensures Edited(f, edits).minArea == f.minArea && Edited(f, edits).maxArea == f.maxArea
    decreases |edits|
  {
    if edits != [] {
      EditsKeepArea(OnChange(f, edits[0].0, edits[0].1), edits[1..]);
    }
  }

  /**
   * The record after a sequence of edits, first to last: once the maximum-price box
   * has been edited the stored maximum is a number other than 0, and until then it is untouched.
   */
  function Edited(f: Filters, edits: seq<(Control, string)>): (r: Filters)
    ensures (forall i :: 0 <= i < |edits| ==> edits[i].0 != MaxPriceInput) ==> r.maxPrice == f.maxPrice
    ensures (exists i :: 0 <= i < |edits| && edits[i].0 == MaxPriceInput) ==> r.maxPrice.Some? && r.maxPrice.value != 0
    decreases |edits|
  {
    if edits == [] then f
    else
      var r := Edited(OnChange(f, edits[0].0, edits[0].1), edits[1..]);
      assert forall i :: 1 <= i < |edits| ==> edits[i] == edits[1..][i - 1];
      r
  }

  // -----------------------------------------------------------------------
  // Option lists

  /** The city list the panel imports, as it appears in the seed data. */
  const IndianCities: seq<string> := [
    "Mumbai", "Delhi", "Bangalore", "Hyderabad", "Chennai", "Kolkata", "Pune", "Ahmedabad",
    "Jaipur", "Surat", "Lucknow", "Kanpur", "Nagpur", "Indore", "Thane", "Bhopal",
    "Visakhapatnam", "Pimpri-Chinchwad", "Patna", "Vadodara", "Ghaziabad", "Ludhiana",
    "Agra", "Nashik", "Faridabad", "Meerut", "Rajkot", "Kalyan-Dombivali", "Vasai-Virar",
    "Varanasi", "Srinagar", "Aurangabad", "Dhanbad", "Amritsar", "Navi Mumbai", "Allahabad",
    "Ranchi", "Howrah", "Coimbatore", "Jabalpur", "Gwalior", "Vijayawada", "Jodhpur",
    "Madurai", "Raipur", "Kota", "Gurgaon", "Chandigarh", "Solapur"]

  /** "All Cities", then one option per city of `indianCities.slice(0, 20)`. */
  function CityChoices(cities: seq<string>): (r: seq<Choice>)
    ensures |r| == 1 + (if |cities| < 20 then |cities| else 20)
    ensures r[0] == Choice("", "All Cities")
    ensures forall i :: 1 <= i < |r| ==> r[i] == Choice(cities[i - 1], cities[i - 1])
  {
    var shown := if |cities| < 20 then cities else cities[..20];
    [Choice("", "All Cities")] + seq(|shown|, i requires 0 <= i < |shown| => Choice(shown[i], shown[i]))
  }

  /** With the 49-city seed list, "All Cities" is followed by the first twenty, the last being Vadodara. */
  lemma SeedCityChoices()
    ensures |CityChoices(IndianCities)| == 21
    ensures CityChoices(IndianCities)[20].value == "Vadodara"
  {
    assert |IndianCities| == 49;
    assert IndianCities[19] == "Vadodara";
  }

  const TypeChoices: seq<Choice> := [
    Choice("", "All Types"), Choice("apartment", "Apartment"), Choice("house", "House"),
    Choice("villa", "Villa"), Choice("plot", "Plot")]

  const BedroomChoices: seq<Choice> := [
    Choice("", "Any"), Choice("1", "1 BHK"), Choice("2", "2 BHK"), Choice("3", "3 BHK"), Choice("4", "4+ BHK")]

  /** Bedroom option `i` holds the decimal text of `i` and is captioned "i BHK", the last "4+ BHK". */
  lemma BedroomChoicesText(i: int)
    requires 1 <= i < |BedroomChoices|
    ensures BedroomChoices[i].value == IntToString(i)
    ensures BedroomChoices[i].text == IntToString(i) + (if i == 4 then "+ BHK" else " BHK")
  {
    if i == 1 {
      assert BedroomChoices[1] == Choice("1", "1 BHK") && IntToString(1) == "1";
    } else if i == 2 {
      assert BedroomChoices[2] == Choice("2", "2 BHK") && IntToString(2) == "2";
    } else if i == 3 {
      assert BedroomChoices[3] == Choice("3", "3 BHK") && IntToString(3) == "3";
    } else {
      assert BedroomChoices[4] == Choice("4", "4+ BHK") && IntToString(4) == "4";
    }
  }

  /** Bedroom option `i` reads as the number `i`. */
  lemma BedroomChoicesRead(i: int)
    requires 1 <= i < |BedroomChoices|
    ensures ParseInt(BedroomChoices[i].value) == Some(i)
  {
    BedroomChoicesText(i);
    IntToStringReads(i);
  }
}
