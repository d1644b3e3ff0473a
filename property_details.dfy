/** The `src` details view: its price in crore / lakh words and its price per square foot. */
module PropertyDetails {
  import opened JsText
  import opened PriceFormat

  /** `formatPrice`: "X.Y Crore", "X.Y Lakh", or the price grouped the Indian way, with no currency sign. */
  function FormatPrice(p: int): (s: string)
    ensures s != []
  {
    match Tier(p, 1)
    case InCrore(t) => TenthsText(t) + " Crore"
    case InLakh(t) => TenthsText(t) + " Lakh"
    case Plain(_) => NonEmptyIndian(p); IndianLocaleInt(p)
  }

  lemma NonEmptyIndian(p: int)
    ensures IndianLocaleInt(p) != []
  {
    var ds := NatToString(if p < 0 then -p else p);
    if |ds| > 3 {
      assert |GroupPairs(ds[..|ds| - 3]) + "," + ds[|ds| - 3..]| > 0;
    }
  }

  /** The words tell the tier: " Crore" exactly from one crore up, " Lakh" exactly from one lakh up to below a crore. */
  lemma FormatPriceTiers(p: int)
    ensures EndsWith(FormatPrice(p), " Crore") <==> p >= Crore
    ensures EndsWith(FormatPrice(p), " Lakh") <==> Lakh <= p < Crore
  {
    var s := FormatPrice(p);
    match Tier(p, 1)
    case InCrore(t) =>
      EndsWithOwnSuffix(TenthsText(t), " Crore");
      NotEndsWith(s, " Lakh");
    case InLakh(t) =>
      EndsWithOwnSuffix(TenthsText(t), " Lakh");
      TenthsNumeral(t);
      WordAfterNumeral(TenthsText(t), " Lakh", " Crore");
    case Plain(_) =>
      LocaleIntNumeral(p);
      NumeralEndsWithNoWord(s, " Crore");
      NumeralEndsWithNoWord(s, " Lakh");
  }

  /** The text carries no currency sign in any tier. */
  lemma NoCurrencySign(p: int)
    ensures forall i :: 0 <= i < |FormatPrice(p)| ==> FormatPrice(p)[i] != '₹'
  {
    var s := FormatPrice(p);
    match Tier(p, 1)
    case InCrore(t) =>
      TenthsNumeral(t);
      assert s == TenthsText(t) + " Crore";
      assert forall i :: 0 <= i < |TenthsText(t)| ==> s[i] == TenthsText(t)[i];
    case InLakh(t) =>
      TenthsNumeral(t);
      assert s == TenthsText(t) + " Lakh";
      assert forall i :: 0 <= i < |TenthsText(t)| ==> s[i] == TenthsText(t)[i];
    case Plain(_) =>
      LocaleIntNumeral(p);
  }

  /** Below a lakh (and above minus a lakh) the en-IN text is the plain thousands grouping. */
  lemma PlainIsThousands(p: int)
    requires -Lakh < p < Lakh
    ensures FormatPrice(p) == LocaleInt(p)
  {
    IndianMatchesThousands(p);
  }

  /** The crore and lakh figures are those the Dashboard shows, the words replacing its "₹…Cr" and "₹…L". */
  lemma SameFiguresAsDashboard(p: int)
    requires p >= Lakh
    ensures p >= Crore ==> exists x :: FormatPrice(p) == x + " Crore" && PriceFormat.FormatPrice(p, 1) == "₹" + x + " Cr"
    ensures p < Crore ==> exists x :: FormatPrice(p) == x + " Lakh" && PriceFormat.FormatPrice(p, 1) == "₹" + x + " L"
  {
    match Tier(p, 1)
    case InCrore(t) =>
      assert FormatPrice(p) == TenthsText(t) + " Crore" && PriceFormat.FormatPrice(p, 1) == "₹" + TenthsText(t) + " Cr";
    case InLakh(t) =>
      assert FormatPrice(p) == TenthsText(t) + " Lakh" && PriceFormat.FormatPrice(p, 1) == "₹" + TenthsText(t) + " L";
  }

  /** The "Price/Sq Ft" line: "₹" and `Math.round(price / area).toLocaleString('en-IN')`. */
  function PricePerSqFtText(price: int, area: int): (s: string)
    ensures area > 0 ==> s == "₹" + IndianLocaleInt((2 * price + area) / (2 * area))
    ensures area == 0 && price > 0 ==> s == "₹∞"
  {
    PositiveAreaQuotient(price, area);
    "₹" + IndianNumberLocale(RoundedQuotient(price, area))
  }
}
