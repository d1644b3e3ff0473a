/**
 * The price arithmetic the display components share: the crore / lakh /
 * plain tiers with one-decimal rounding, `Math.round(price / area)`, and
 * the texts built from them.
 */
module PriceFormat {
  import opened Wrappers
  import opened JsText

  // -----------------------------------------------------------------------
  // Rounding

  /** `n / d` lies within half of `r`: `r` is a nearest integer to `n / d`, whichever way a tie goes. */
  predicate WithinHalf(n: int, d: int, r: int)
  {
    -d <= 2 * n - 2 * d * r <= d
  }

  /** `Math.round(n / d)` for `d > 0`: the integer nearest `n / d`, a half going up. */
  function RoundHalfUp(n: int, d: int): (r: int)
    requires d > 0
    ensures d * (2 * r - 1) <= 2 * n < d * (2 * r + 1)
  {
    var q := (2 * n + d) / (2 * d);
    assert 2 * d * q <= 2 * n + d < 2 * d * q + 2 * d by {
      var m := (2 * n + d) % (2 * d);
      assert 2 * n + d == 2 * d * q + m;
    }
    q
  }

  /** Away from a tie, only one integer lies within half: the rounding is then forced. */
  lemma NearestIsUnique(n: int, d: int, r: int, s: int)
    requires d > 0
    requires WithinHalf(n, d, r) && WithinHalf(n, d, s)
    requires (2 * n) % (2 * d) != d
    ensures r == s
  {
    if r != s {
      var lo := if r < s then r else s;
      var hi := if r < s then s else r;
      MultiplyLeft(d, lo + 1, hi);
      var a, b := d * lo, d * hi;
      assert d * (lo + 1) == a + d;
      assert 2 * d * lo == 2 * a && 2 * d * hi == 2 * b;
      assert (2 * d) * lo + d == 2 * n;
      ModOfMultiplePlus(2 * d, lo, d);
    }
  }

  lemma ModOfMultiplePlus(m: int, k: int, x: int)
    requires m > 0 && 0 <= x < m
    ensures (m * k + x) % m == x
  {
    var q := (m * k + x) / m;
    var y := (m * k + x) % m;
    assert m * k + x == m * q + y;
    assert m * (k - q) == y - x;
    if k - q >= 1 {
      MultiplyLeft(m, 1, k - q);
    } else if k - q <= -1 {
      MultiplyLeft(m, k - q, -1);
    }
  }

  /** Multiplying by a positive factor keeps the order. */
  lemma MultiplyLeft(d: int, a: int, b: int)
    requires d > 0 && a <= b
    ensures d * a <= d * b
  {
    assert d * b - d * a == d * (b - a);
  }

  /** Dividing out a positive factor keeps a strict order. */
  lemma CancelLeft(d: int, a: int, b: int)
    requires d > 0 && d * a < d * b
    ensures a < b
  {
    if a >= b {
      MultiplyLeft(d, b, a);
    }
  }

  /** With `d > 0`, a lower bound on `n` gives a lower bound on `Math.round(n / d)`. */
  lemma RoundedAtLeast(n: int, d: int, lo: int)
    requires d > 0 && n >= d * lo
    ensures RoundHalfUp(n, d) >= lo
  {
    var r := RoundHalfUp(n, d);
    assert d * (2 * lo) < d * (2 * r + 1);
    CancelLeft(d, 2 * lo, 2 * r + 1);
  }

  /** With `d > 0`, a strict upper bound on `n` gives an upper bound on `Math.round(n / d)`. */
  lemma RoundedAtMost(n: int, d: int, hi: int)
    requires d > 0 && n < d * hi
    ensures RoundHalfUp(n, d) <= hi
  {
    var r := RoundHalfUp(n, d);
    assert d * (2 * r - 1) < d * (2 * hi);
    CancelLeft(d, 2 * r - 1, 2 * hi);
  }

  // -----------------------------------------------------------------------
  // The three tiers

  const Crore := 10000000
  const Lakh := 100000

  /** What a price is shown as: tenths of a crore, tenths of a lakh, or thousandths of a rupee. */
  datatype Amount = InCrore(tenths: int) | InLakh(tenths: int) | Plain(thousandths: int)

  /**
   * The tier of the price `num / den` and the rounded figure shown for it:
   * `(price / 10000000).toFixed(1)` from one crore up, `(price / 100000).toFixed(1)`
   * from one lakh up, and otherwise the price to three decimals.
   */
  function Tier(num: int, den: int): (r: Amount)
    requires den > 0
    ensures r.InCrore? <==> num >= Crore * den
    ensures r.InLakh? <==> Lakh * den <= num < Crore * den
    ensures r.InCrore? ==> r.tenths >= 10 && WithinHalf(num, den * 1000000, r.tenths)
    ensures r.InLakh? ==> 10 <= r.tenths <= 1000 && WithinHalf(num, den * 10000, r.tenths)
    ensures r.Plain? ==> WithinHalf(1000 * num, den, r.thousandths)
  {
    if num >= Crore * den then
      RoundedAtLeast(num, den * 1000000, 10);
      InCrore(RoundHalfUp(num, den * 1000000))
    else if num >= Lakh * den then
      RoundedAtLeast(num, den * 10000, 10);
      RoundedAtMost(num, den * 10000, 1000);
      InLakh(RoundHalfUp(num, den * 10000))
    else
      Plain(RoundHalfUp(1000 * num, den))
  }

  /** For a whole-rupee price off a tie, the tenths shown are `(p + 500000) div 1000000` and `(p + 5000) div 10000`. */
  lemma WholePriceTenths(p: int)
    ensures Tier(p, 1).InCrore? && p % 1000000 != 500000 ==> Tier(p, 1).tenths == (p + 500000) / 1000000
    ensures Tier(p, 1).InLakh? && p % 10000 != 5000 ==> Tier(p, 1).tenths == (p + 5000) / 10000
    ensures Tier(p, 1).Plain? ==> Tier(p, 1).thousandths == 1000 * p
  {
    var r := Tier(p, 1);
    if r.InCrore? && p % 1000000 != 500000 {
      var q := (p + 500000) / 1000000;
      assert p + 500000 == 1000000 * q + (p + 500000) % 1000000;
      assert WithinHalf(p, 1000000, q);
      DoubledMod(p, 1000000);
      NearestIsUnique(p, 1000000, r.tenths, q);
    }
    if r.InLakh? && p % 10000 != 5000 {
      var q := (p + 5000) / 10000;
      assert p + 5000 == 10000 * q + (p + 5000) % 10000;
      assert WithinHalf(p, 10000, q);
      DoubledMod(p, 10000);
      NearestIsUnique(p, 10000, r.tenths, q);
    }
    if r.Plain? {
      NearestIsUnique(1000 * p, 1, r.thousandths, 1000 * p);
    }
  }

  lemma DoubledMod(p: int, m: int)
    requires m > 0
    ensures (2 * p) % (2 * m) == 2 * (p % m)
  {
    var q := p / m;
    assert p == m * q + p % m;
    assert 2 * p == (2 * m) * q + 2 * (p % m);
    ModOfMultiplePlus(2 * m, q, 2 * (p % m));
  }

  // -----------------------------------------------------------------------
  // Texts

  /** `x.toFixed(1)` for a non-negative `x` given in tenths: the whole part, a point, one digit. */
  function TenthsText(t: nat): (s: string)
    ensures |s| >= 3 && s[|s| - 2] == '.'
  {
    NatToString(t / 10) + "." + [DigitChar(t % 10)]
  }

  /** Reads "W.D" back into tenths. */
  function ReadTenths(s: string): Option<nat>
  {
    if |s| >= 3 && s[|s| - 2] == '.' && AllDigits(s[..|s| - 2]) && IsDigit(s[|s| - 1])
    then Some(10 * DigitsValue(s[..|s| - 2]) + DigitValue(s[|s| - 1]))
    else None
  }

  /** The one-decimal text determines the tenths it was written from. */
  lemma TenthsRoundTrip(t: nat)
    ensures ReadTenths(TenthsText(t)) == Some(t)
  {
    var s := TenthsText(t);
    assert s[..|s| - 2] == NatToString(t / 10);
    assert s[|s| - 1] == DigitChar(t % 10);
  }

  /** The three fraction digits of thousandths `f`, trailing zeros dropped. */
  function FractionText(f: nat): (s: string)
    requires f < 1000
    ensures f == 0 <==> s == ""
  {
    if f == 0 then ""
    else if f % 100 == 0 then "." + [DigitChar(f / 100)]
    else if f % 10 == 0 then "." + [DigitChar(f / 100), DigitChar(f / 10 % 10)]
    else "." + [DigitChar(f / 100), DigitChar(f / 10 % 10), DigitChar(f % 10)]
  }

  /**
   * `x.toLocaleString()` for `x` given in thousandths: grouped whole part and at most
   * three decimals; a point shows exactly for a fraction and a minus exactly below 0.
   */
  function LocaleDecimal(k: int): (s: string)
    ensures '.' in s <==> k % 1000 != 0
    ensures '-' in s <==> k < 0
  {
    var m := if k < 0 then -k else k;
    var whole := GroupThousands(NatToString(m / 1000));
    var fraction := FractionText(m % 1000);
    GroupedDigits(NatToString(m / 1000));
    FractionChars(m % 1000);
    assert m % 1000 == 0 <==> k % 1000 == 0;
    (if k < 0 then "-" else "") + whole + fraction
  }

  /** The en-US grouping of digits holds digits and commas only. */
  lemma {:induction false} GroupedDigits(ds: string)
    requires AllDigits(ds)
    ensures '.' !in GroupThousands(ds) && '-' !in GroupThousands(ds)
    decreases |ds|
  {
    if |ds| > 3 {
      var hi, lo := ds[..|ds| - 3], ds[|ds| - 3..];
      assert AllDigits(hi) && AllDigits(lo) by {
        assert forall i :: 0 <= i < |hi| ==> hi[i] == ds[i];
        assert forall i :: 0 <= i < |lo| ==> lo[i] == ds[|ds| - 3 + i];
      }
      GroupedDigits(hi);
      assert GroupThousands(ds) == GroupThousands(hi) + "," + lo;
    }
  }

  /** The decimals open with the point, if there are any, and hold no minus sign. */
  lemma FractionChars(f: nat)
    requires f < 1000
    ensures '.' in FractionText(f) <==> f != 0
    ensures '-' !in FractionText(f)
  {
    if f != 0 {
      assert FractionText(f)[0] == '.';
    }
  }

  /** For a whole number the decimal text is the grouped integer. */
  lemma LocaleDecimalOfWhole(p: int)
    ensures LocaleDecimal(1000 * p) == LocaleInt(p)
  {
    var m := if p < 0 then -p else p;
    assert (if 1000 * p < 0 then -(1000 * p) else 1000 * p) == 1000 * m;
    assert 1000 * m / 1000 == m && 1000 * m % 1000 == 0;
  }

  /** `formatPrice` of the Dashboard and of the comparison view, for the price `num / den`. */
  function FormatPrice(num: int, den: int): (s: string)
    requires den > 0
    ensures |s| >= 1 && s[0] == '₹'
  {
    match Tier(num, den)
    case InCrore(t) => "₹" + TenthsText(t) + " Cr"
    case InLakh(t) => "₹" + TenthsText(t) + " L"
    case Plain(k) => "₹" + LocaleDecimal(k)
  }

  predicate EndsWith(s: string, suffix: string)
  {
    |suffix| <= |s| && s[|s| - |suffix|..] == suffix
  }

  lemma EndsWithOwnSuffix(a: string, w: string)
    ensures EndsWith(a + w, w)
  {
    assert (a + w)[|a + w| - |w|..] == w;
  }

  /** A text does not end with `v` when the character where `v` would start differs from its first. */
  lemma NotEndsWith(s: string, v: string)
    requires v != []
    requires |v| <= |s| ==> s[|s| - |v|] != v[0]
    ensures !EndsWith(s, v)
  {
    if |v| <= |s| {
      assert s[|s| - |v|..][0] == s[|s| - |v|];
    }
  }

  /** A numeral followed by a word does not end with a one-character-longer word starting with a space. */
  lemma WordAfterNumeral(text: string, w: string, v: string)
    requires Numeral(text) && text != []
    requires |v| == |w| + 1 && v[0] == ' '
    ensures !EndsWith(text + w, v)
  {
    var s := text + w;
    assert s[|s| - |v|] == text[|text| - 1];
    assert IsDigit(text[|text| - 1]) || text[|text| - 1] in ",.-";
    NotEndsWith(s, v);
  }

  /** A numeral holds no space, so it ends with no word that starts with one. */
  lemma NumeralEndsWithNoWord(s: string, v: string)
    requires Numeral(s) && v != [] && v[0] == ' '
    ensures !EndsWith(s, v)
  {
    if |v| <= |s| {
      assert IsDigit(s[|s| - |v|]) || s[|s| - |v|] in ",.-";
    }
    NotEndsWith(s, v);
  }

  /** The decimal text is a numeral: it holds no space and no currency sign. */
  lemma LocaleDecimalNumeral(k: int)
    ensures Numeral(LocaleDecimal(k))
  {
    var m := if k < 0 then -k else k;
    var f := m % 1000;
    GroupThousandsNumeral(NatToString(m / 1000));
    assert Numeral(FractionText(f)) by {
      assert DigitValue(DigitChar(f / 100)) == f / 100;
    }
    NumeralAppend(if k < 0 then "-" else "", GroupThousands(NatToString(m / 1000)));
    NumeralAppend((if k < 0 then "-" else "") + GroupThousands(NatToString(m / 1000)), FractionText(f));
  }

  lemma TenthsNumeral(t: nat)
    ensures Numeral(TenthsText(t))
  {
    NumeralAppend(NatToString(t / 10), ".");
    NumeralAppend(NatToString(t / 10) + ".", [DigitChar(t % 10)]);
  }

  /** The suffix tells the tier: " Cr" exactly from one crore up, " L" exactly from one lakh up to below a crore. */
  lemma FormatPriceTiers(num: int, den: int)
    requires den > 0
    ensures EndsWith(FormatPrice(num, den), " Cr") <==> num >= Crore * den
    ensures EndsWith(FormatPrice(num, den), " L") <==> Lakh * den <= num < Crore * den
  {
    var s := FormatPrice(num, den);
    match Tier(num, den)
    case InCrore(t) =>
      EndsWithOwnSuffix("₹" + TenthsText(t), " Cr");
      NotEndsWith(s, " L");
    case InLakh(t) =>
      EndsWithOwnSuffix("₹" + TenthsText(t), " L");
      NotEndsWith(s, " Cr");
    case Plain(k) =>
      LocaleDecimalNumeral(k);
      NumeralEndsWithNoWord(LocaleDecimal(k), " Cr");
      NumeralEndsWithNoWord(LocaleDecimal(k), " L");
      SignedEndsWith(LocaleDecimal(k), " Cr");
      SignedEndsWith(LocaleDecimal(k), " L");
  }

  /** The currency sign in front does not change how a text ends, unless the suffix reaches it. */
  lemma SignedEndsWith(l: string, v: string)
    requires v != [] && v[0] != '₹'
    ensures EndsWith("₹" + l, v) ==> EndsWith(l, v)
  {
    var s := "₹" + l;
    if EndsWith(s, v) {
      assert s[|s| - |v|] == v[0];
      assert |v| <= |l|;
      assert s[|s| - |v|..] == l[|l| - |v|..];
    }
  }

  /** A whole price below a lakh is shown as the grouped integer. */
  lemma FormatWholePlain(p: int)
    requires p < Lakh
    ensures FormatPrice(p, 1) == "₹" + LocaleInt(p)
  {
    WholePriceTenths(p);
    LocaleDecimalOfWhole(p);
  }

  /** One rupee short of a crore still rounds to a hundred lakh. */
  lemma JustBelowCrore()
    ensures FormatPrice(9999999, 1) == "₹100.0 L"
  {
    WholePriceTenths(9999999);
    assert Tier(9999999, 1) == InLakh(1000);
    assert NatToString(100) == "100" by {
      assert NatToString(1) == "1";
      assert NatToString(10) == NatToString(1) + [DigitChar(0)];
      assert NatToString(100) == NatToString(10) + [DigitChar(0)];
    }
    assert TenthsText(1000) == "100.0";
  }

  /** One crore is shown as "₹1.0 Cr". */
  lemma OneCrore()
    ensures FormatPrice(10000000, 1) == "₹1.0 Cr"
  {
    WholePriceTenths(10000000);
    assert Tier(10000000, 1) == InCrore(10);
    assert TenthsText(10) == "1.0";
  }

  // -----------------------------------------------------------------------
  // Price per square foot

  /** A JS number as `Math.round` can return it. */
  datatype JsNumber = Finite(value: int) | PosInfinity | NegInfinity | NaN

  /** `Math.round(price / area)`: division by zero gives an infinity, or NaN for 0 / 0. */
  function RoundedQuotient(p: int, a: int): (r: JsNumber)
    ensures a > 0 ==> r.Finite? && a * (2 * r.value - 1) <= 2 * p < a * (2 * r.value + 1)
    ensures a < 0 ==> r.Finite? && -a * (2 * r.value - 1) <= -2 * p < -a * (2 * r.value + 1)
    ensures a == 0 ==> r == (if p > 0 then PosInfinity else if p < 0 then NegInfinity else NaN)
  {
    if a > 0 then Finite(RoundHalfUp(p, a))
    else if a < 0 then Finite(RoundHalfUp(-p, -a))
    else if p > 0 then PosInfinity
    else if p < 0 then NegInfinity
    else NaN
  }

  /** For a positive area the rounded quotient is `(2p + a) div (2a)`, and it is the only integer the contract admits. */
  lemma RoundedQuotientByDivision(p: int, a: int, x: int)
    requires a > 0
    requires a * (2 * x - 1) <= 2 * p < a * (2 * x + 1)
    ensures RoundedQuotient(p, a) == Finite(x)
    ensures x == (2 * p + a) / (2 * a)
  {
    var r := RoundedQuotient(p, a).value;
    CancelLeft(a, 2 * r - 1, 2 * x + 1);
    CancelLeft(a, 2 * x - 1, 2 * r + 1);
  }

  /** For a positive area `Math.round(p / a)` is `(2p + a) div (2a)`. */
  lemma PositiveAreaQuotient(p: int, a: int)
    ensures a > 0 ==> RoundedQuotient(p, a) == Finite((2 * p + a) / (2 * a))
  {
    if a > 0 {
      RoundedQuotientByDivision(p, a, RoundedQuotient(p, a).value);
    }
  }

  /**
   * `n.toLocaleString()` for what `Math.round` returned: a finite value is its decimal
   * text with commas inserted, and the texts of the infinities and of NaN hold no digit.
   */
  function NumberLocale(r: JsNumber): (s: string)
    ensures r.Finite? ==> WithoutCommas(s) == IntToString(r.value)
    ensures !r.Finite? ==> forall i :: 0 <= i < |s| ==> !IsDigit(s[i])
  {
    match r
    case Finite(n) => LocaleInt(n)
    case PosInfinity => "∞"
    case NegInfinity => "-∞"
    case NaN => "NaN"
  }

  /** `n.toLocaleString('en-IN')` for what `Math.round` returned, with the same contract. */
  function IndianNumberLocale(r: JsNumber): (s: string)
    ensures r.Finite? ==> WithoutCommas(s) == IntToString(r.value)
    ensures !r.Finite? ==> forall i :: 0 <= i < |s| ==> !IsDigit(s[i])
  {
    match r
    case Finite(n) => IndianLocaleInt(n)
    case PosInfinity => "∞"
    case NegInfinity => "-∞"
    case NaN => "NaN"
  }

  /** With its commas removed, the text of a finite value reads back as that value; the other texts read as NaN. */
  lemma LocaleTextsReadBack(r: JsNumber)
    ensures ParseInt(WithoutCommas(NumberLocale(r))) == if r.Finite? then Some(r.value) else None
    ensures ParseInt(WithoutCommas(IndianNumberLocale(r))) == if r.Finite? then Some(r.value) else None
  {
    if r.Finite? {
      IntToStringReads(r.value);
    } else {
      NonFiniteTexts();
    }
  }

  /** The texts of the infinities and of NaN hold no comma and read as NaN. */
  lemma NonFiniteTexts()
    ensures WithoutCommas("∞") == "∞" && ParseInt("∞") == None
    ensures WithoutCommas("-∞") == "-∞" && ParseInt("-∞") == None
    ensures WithoutCommas("NaN") == "NaN" && ParseInt("NaN") == None
  {
    assert WithoutCommas("∞") == "∞" && ParseInt("∞") == None by {
      NotANumber("∞");
    }
    assert WithoutCommas("-∞") == "-∞" && ParseInt("-∞") == None by {
      NotANumber("-∞");
    }
    NotANumber("NaN");
  }

  /** A comma-free text that opens with neither white space nor a number reads as NaN. */
  lemma NotANumber(t: string)
    requires t != [] && !IsSpace(t[0]) && !StartsNumber(t) && ',' !in t
    ensures WithoutCommas(t) == t && ParseInt(t) == None
  {
    TrimStartOfUnspaced(t);
    WithoutCommasOfCommaFree(t);
  }

  lemma WithoutCommasOfCommaFree(t: string)
    requires ',' !in t
    ensures WithoutCommas(t) == t
  {
    if t != [] {
      assert ',' !in t[1..];
      WithoutCommasOfCommaFree(t[1..]);
    }
  }
}
