/** The client comparison view: one card per property, with price, price per square foot and amenities. */
module PropertyComparison {
  import opened Wrappers
  import opened JsText
  import opened Catalog
  import opened PriceFormat

  /** `formatPricePerSqFt`: "₹" and `Math.round(price / area).toLocaleString()`. */
  function FormatPricePerSqFt(price: int, area: int): (s: string)
    ensures area > 0 ==> s == "₹" + LocaleInt((2 * price + area) / (2 * area))
    ensures area == 0 ==> s == (if price > 0 then "₹∞" else if price < 0 then "₹-∞" else "₹NaN")
  {
    PositiveAreaQuotient(price, area);
    "₹" + NumberLocale(RoundedQuotient(price, area))
  }

  /** `amenities.slice(0, 3)`: the first three amenities, or all when there are fewer. */
  function TopAmenities(amenities: seq<string>): (r: seq<string>)
    ensures |r| == (if |amenities| < 3 then |amenities| else 3)
    ensures r <= amenities
  {
    if |amenities| < 3 then amenities else amenities[..3]
  }

  /** The "+k more" badge, shown only when more than three amenities exist. */
  function MoreBadge(amenities: seq<string>): (r: Option<string>)
    ensures r.Some? <==> |amenities| > 3
  {
    if |amenities| > 3 then Some("+" + IntToString(|amenities| - 3) + " more") else None
  }

  /** The badge counts what the chips leave out: the chips and the badge's number add up to every amenity. */
  lemma BadgeCountsTheRest(amenities: seq<string>)
    ensures MoreBadge(amenities).Some? ==>
              exists k: int :: MoreBadge(amenities) == Some("+" + IntToString(k) + " more")
                            && |TopAmenities(amenities)| + k == |amenities| && k >= 1
    ensures MoreBadge(amenities).None? ==> TopAmenities(amenities) == amenities
  {
    if |amenities| > 3 {
      var k := |amenities| - 3;
      assert MoreBadge(amenities) == Some("+" + IntToString(k) + " more");
    }
  }

  /** What one card shows. */
  datatype Card = Card(
    id: int,
    price: string,
    pricePerSqFt: string,
    amenities: seq<string>,
    moreBadge: Option<string>)

  function CardOf(p: Property): Card
  {
    Card(p.id, FormatPrice(p.price, 1), FormatPricePerSqFt(p.price, p.area), TopAmenities(p.amenities), MoreBadge(p.amenities))
  }

  /** `properties.map(...)`: one card per property, in the order given. */
  function Cards(properties: seq<Property>): (r: seq<Card>)
    ensures |r| == |properties|
    ensures forall i :: 0 <= i < |r| ==> r[i].id == properties[i].id && r[i] == CardOf(properties[i])
  {
    seq(|properties|, i requires 0 <= i < |properties| => CardOf(properties[i]))
  }

  /** The "Add at least 2 properties to compare" notice. */
  predicate ShowsNotice(properties: seq<Property>)
  {
    |properties| < 2
  }

  /** The notice shows exactly when fewer than two cards do. */
  lemma NoticeIffFewCards(properties: seq<Property>)
    ensures ShowsNotice(properties) <==> |Cards(properties)| < 2
  {
  }
}
