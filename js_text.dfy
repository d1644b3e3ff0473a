/**
 * The JavaScript built-ins the front ends lean on, restricted to what the
 * listing logic feeds them: `toLowerCase` (ASCII letters only), `includes`,
 * `parseInt`, `Number`, `String(n)` for integers and `toLocaleString` with
 * the en-US and en-IN digit grouping.  `None` stands for NaN.
 */
module JsText {
  import opened Wrappers

  // ---------------------------------------------------------------------
  // Characters and digits

  predicate IsDigit(c: char) { '0' <= c <= '9' }

  /**
   * The white space `parseInt` and `Number` skip (ECMAScript's StrWhiteSpaceChar):
   * TAB, LF, VT, FF, CR, the space separators of category Zs (U+0020, U+00A0,
   * U+1680, U+2000 to U+200A, U+202F, U+205F, U+3000), U+2028, U+2029 and U+FEFF.
   */
  predicate IsSpace(c: char)
  {
    var u := c as int;
    u == 0x20 || 9 <= u <= 13 || u == 0xA0 || u == 0x1680 || 0x2000 <= u <= 0x200A
    || u == 0x2028 || u == 0x2029 || u == 0x202F || u == 0x205F || u == 0x3000 || u == 0xFEFF
  }

  function DigitValue(c: char): (d: nat)
    requires IsDigit(c)
    ensures d < 10
  {
    c as int - '0' as int
  }

  function DigitChar(d: nat): (c: char)
    requires d < 10
    ensures IsDigit(c) && DigitValue(c) == d
  {
    ('0' as int + d) as char
  }

  predicate AllDigits(s: string) { forall i :: 0 <= i < |s| ==> IsDigit(s[i]) }

  // ---------------------------------------------------------------------
  // toLowerCase and includes

  function LowerChar(c: char): char
  {
    if 'A' <= c <= 'Z' then (c as int + 32) as char else c
  }

  /** `s.toLowerCase()` on ASCII letters; every other character is kept. */
  function Lower(s: string): (r: string)
    ensures |r| == |s|
    ensures forall i :: 0 <= i < |s| ==> r[i] == LowerChar(s[i])
  {
    if s == [] then [] else [LowerChar(s[0])] + Lower(s[1..])
  }

  /** Lower-casing twice is lower-casing once. */
  lemma LowerIdempotent(s: string)
    ensures Lower(Lower(s)) == Lower(s)
  {
    var l := Lower(s);
    assert forall i :: 0 <= i < |s| ==> LowerChar(l[i]) == l[i];
  }

  /** `hay.includes(needle)`: needle occurs in hay at some position. */
  predicate Includes(hay: string, needle: string)
    decreases |hay|
  {
    needle <= hay || (hay != [] && Includes(hay[1..], needle))
  }

  /** `needle` occurs in `hay` starting at position `i`. */
  predicate OccursAt(hay: string, needle: string, i: int)
  {
    0 <= i && i + |needle| <= |hay| && hay[i..i + |needle|] == needle
  }

  /** `includes` is a search for a position at which the needle occurs. */
  lemma IncludesAt(hay: string, needle: string)
    ensures Includes(hay, needle) <==> exists i :: OccursAt(hay, needle, i)
  {
    if Includes(hay, needle) {
      var i := IncludesFound(hay, needle);
    }
    if exists i :: OccursAt(hay, needle, i) {
      var i :| OccursAt(hay, needle, i);
      IncludesFrom(hay, needle, i);
    }
  }

  /** Where `includes` holds, a position of the needle exists. */
  lemma {:induction false} IncludesFound(hay: string, needle: string) returns (i: int)
    requires Includes(hay, needle)
    ensures OccursAt(hay, needle, i)
    decreases |hay|
  {
    if needle <= hay {
      i := 0;
      assert hay[..|needle|] == needle;
    } else {
      var j := IncludesFound(hay[1..], needle);
      assert hay[1..][j..j + |needle|] == hay[j + 1..j + 1 + |needle|];
      i := j + 1;
    }
  }

  /** A needle occurring at position `i` is found by `includes`. */
  lemma {:induction false} IncludesFrom(hay: string, needle: string, i: int)
    requires OccursAt(hay, needle, i)
    ensures Includes(hay, needle)
    decreases i
  {
    if i == 0 {
      assert hay[..|needle|] == needle;
    } else {
      assert hay[1..][i - 1..i - 1 + |needle|] == hay[i..i + |needle|];
      IncludesFrom(hay[1..], needle, i - 1);
    }
  }

  // ---------------------------------------------------------------------
  // Reading numbers: parseInt and Number

  /** `s.trimStart()`: the leading white space removed, and nothing else. */
  function TrimStart(s: string): (r: string)
    ensures r == [] || !IsSpace(r[0])
    ensures |r| <= |s| && r == s[|s| - |r|..]
    ensures forall i :: 0 <= i < |s| - |r| ==> IsSpace(s[i])
  {
    if s != [] && IsSpace(s[0]) then
      var r := TrimStart(s[1..]);
      assert forall i :: 1 <= i < |s| - |r| ==> s[i] == s[1..][i - 1];
      r
    else s
  }

  /** `s.trimEnd()`: the trailing white space removed, and nothing else. */
  function TrimEnd(s: string): (r: string)
    ensures r == [] || !IsSpace(r[|r| - 1])
    ensures r <= s
    ensures forall i :: |r| <= i < |s| ==> IsSpace(s[i])
  {
    if s != [] && IsSpace(s[|s| - 1]) then
      var r := TrimEnd(s[..|s| - 1]);
      assert forall i :: |r| <= i < |s| - 1 ==> s[i] == s[..|s| - 1][i];
      r
    else s
  }

  /** The longest run of decimal digits at the start of `s`. */
  function DigitPrefix(s: string): (r: string)
    ensures r <= s && AllDigits(r)
    ensures |r| == |s| || !IsDigit(s[|r|])
  {
    if s != [] && IsDigit(s[0]) then [s[0]] + DigitPrefix(s[1..]) else []
  }

  /** The value of a string of decimal digits, most significant first. */
  function DigitsValue(ds: string): nat
    requires AllDigits(ds)
  {
    if ds == [] then 0 else 10 * DigitsValue(ds[..|ds| - 1]) + DigitValue(ds[|ds| - 1])
  }

  /** Splits an optional leading sign off a string. */
  function SplitSign(t: string): (bool, string)
  {
    if t != [] && (t[0] == '-' || t[0] == '+') then (t[0] == '-', t[1..]) else (false, t)
  }

  function Signed(negative: bool, n: nat): int { if negative then -(n as int) else n }

  /**
   * `parseInt(s)` with no radix, for decimal input: leading white space and
   * one sign are skipped, then the longest run of digits is read and the rest
   * ignored (so "1.5" reads as 1); no digit at all gives NaN.
   */
  function ParseInt(s: string): (r: Option<int>)
    ensures r.Some? <==> StartsNumber(TrimStart(s))
  {
    var t := TrimStart(s);
    var (negative, rest) := SplitSign(t);
    var ds := DigitPrefix(rest);
    StartsNumberReads(t);
    if ds == [] then None else Some(Signed(negative, DigitsValue(ds)))
  }

  /** `t` opens with a digit, or with a sign and a digit. */
  predicate StartsNumber(t: string)
  {
    (t != [] && IsDigit(t[0])) || (|t| >= 2 && (t[0] == '-' || t[0] == '+') && IsDigit(t[1]))
  }

  lemma StartsNumberReads(t: string)
    ensures DigitPrefix(SplitSign(t).1) != [] <==> StartsNumber(t)
  {
    var rest := SplitSign(t).1;
    if rest != [] {
      assert DigitPrefix(rest) != [] <==> IsDigit(rest[0]);
    }
  }

  /**
   * `Number(s)` for integer input: white space is trimmed at both ends, the
   * empty string is 0, and otherwise the whole rest must be an optional sign
   * followed by digits; anything else is NaN.
   */
  function NumberOf(s: string): (r: Option<int>)
    ensures (forall i :: 0 <= i < |s| ==> IsSpace(s[i])) ==> r == Some(0)
    ensures AllDigits(s) && s != [] ==> r == Some(DigitsValue(s))
  {
    var t := TrimEnd(TrimStart(s));
    BlankTrimsAway(s);
    DigitsUntrimmed(s);
    if t == [] then Some(0)
    else
      var (negative, rest) := SplitSign(t);
      if rest != [] && AllDigits(rest) then Some(Signed(negative, DigitsValue(rest))) else None
  }

  /** A string of white space trims to nothing. */
  lemma BlankTrimsAway(s: string)
    ensures (forall i :: 0 <= i < |s| ==> IsSpace(s[i])) ==> TrimStart(s) == []
  {
    var r := TrimStart(s);
    if r != [] {
      assert r[0] == s[|s| - |r|];
    }
  }

  /** A string of digits has no white space to trim. */
  lemma DigitsUntrimmed(s: string)
    ensures AllDigits(s) && s != [] ==> TrimEnd(TrimStart(s)) == s && SplitSign(s) == (false, s)
  {
    if AllDigits(s) && s != [] {
      TrimStartOfUnspaced(s);
      TrimEndOfDigitEnded(s);
    }
  }

  /** `x >= b` for a number `b` that may be NaN: every comparison with NaN is false. */
  predicate AtLeast(x: int, b: Option<int>) { b.Some? && x >= b.value }

  /** `x <= b` for a number `b` that may be NaN. */
  predicate AtMost(x: int, b: Option<int>) { b.Some? && x <= b.value }

  // ---------------------------------------------------------------------
  // Writing numbers: String(n) and toLocaleString

  /** The decimal digits of `n` with no leading zero. */
  function NatToString(n: nat): (r: string)
    ensures r != [] && AllDigits(r)
    ensures DigitsValue(r) == n
    ensures r[0] == '0' ==> n == 0
  {
    if n < 10 then [DigitChar(n)]
    else
      var r := NatToString(n / 10) + [DigitChar(n % 10)];
      assert r[..|r| - 1] == NatToString(n / 10);
      r
  }

  /** `String(n)` for an integer: a minus sign and the digits of |n|. */
  function IntToString(n: int): (r: string)
    ensures r != [] && (r[0] == '-' <==> n < 0)
  {
    if n < 0 then "-" + NatToString(-n) else NatToString(n)
  }

  lemma DigitPrefixOfDigits(ds: string)
    requires AllDigits(ds)
    ensures DigitPrefix(ds) == ds
  {
  }

  lemma TrimEndOfDigitEnded(s: string)
    requires s != [] && IsDigit(s[|s| - 1])
    ensures TrimEnd(s) == s
  {
  }

  lemma TrimStartOfUnspaced(s: string)
    requires s != [] && !IsSpace(s[0])
    ensures TrimStart(s) == s
  {
  }

  /** Reading back what `String(n)` wrote gives `n`, with `Number` and with `parseInt`. */
  lemma IntToStringReads(n: int)
    ensures NumberOf(IntToString(n)) == Some(n)
    ensures ParseInt(IntToString(n)) == Some(n)
  {
    var s := IntToString(n);
    var ds := NatToString(if n < 0 then -n else n);
    TrimStartOfUnspaced(s);
    TrimEndOfDigitEnded(s);
    DigitPrefixOfDigits(ds);
    if n < 0 {
      assert s == "-" + ds;
      assert SplitSign(s) == (true, ds);
    } else {
      assert s == ds;
      assert SplitSign(s) == (false, ds);
    }
  }

  /** en-US grouping of a digit string: commas between groups of three from the right. */
  function GroupThousands(ds: string): string
    decreases |ds|
  {
    if |ds| <= 3 then ds else GroupThousands(ds[..|ds| - 3]) + "," + ds[|ds| - 3..]
  }

  /** en-IN grouping of a digit string: the last three digits, then groups of two. */
  function GroupIndian(ds: string): string
  {
    if |ds| <= 3 then ds else GroupPairs(ds[..|ds| - 3]) + "," + ds[|ds| - 3..]
  }

  function GroupPairs(ds: string): string
    decreases |ds|
  {
    if |ds| <= 2 then ds else GroupPairs(ds[..|ds| - 2]) + "," + ds[|ds| - 2..]
  }

  /** `n.toLocaleString()` for an integer, with en-US grouping: `String(n)` with commas inserted. */
  function LocaleInt(n: int): (r: string)
    ensures WithoutCommas(r) == IntToString(n)
  {
    var ds := NatToString(if n < 0 then -n else n);
    GroupThousandsUngroups(ds);
    WithoutCommasAppend("-", GroupThousands(ds));
    if n < 0 then "-" + GroupThousands(ds) else GroupThousands(ds)
  }

  /** `n.toLocaleString('en-IN')` for an integer: `String(n)` with commas inserted. */
  function IndianLocaleInt(n: int): (r: string)
    ensures WithoutCommas(r) == IntToString(n)
  {
    var ds := NatToString(if n < 0 then -n else n);
    GroupIndianUngroups(ds);
    WithoutCommasAppend("-", GroupIndian(ds));
    if n < 0 then "-" + GroupIndian(ds) else GroupIndian(ds)
  }

  /** Drops every comma. */
  function WithoutCommas(s: string): (r: string)
    ensures forall i :: 0 <= i < |r| ==> r[i] != ','
  {
    if s == [] then [] else (if s[0] == ',' then [] else [s[0]]) + WithoutCommas(s[1..])
  }

  lemma WithoutCommasAppend(a: string, b: string)
    ensures WithoutCommas(a + b) == WithoutCommas(a) + WithoutCommas(b)
  {
    if a == [] {
      assert a + b == b;
    } else {
      assert (a + b)[1..] == a[1..] + b;
    }
  }

  lemma WithoutCommasOfDigits(ds: string)
    requires AllDigits(ds)
    ensures WithoutCommas(ds) == ds
  {
  }

  /** The grouping only inserts commas: removing them gives the digits back. */
  lemma {:induction false} GroupThousandsUngroups(ds: string)
    requires AllDigits(ds)
    ensures WithoutCommas(GroupThousands(ds)) == ds
    decreases |ds|
  {
    if |ds| <= 3 {
      WithoutCommasOfDigits(ds);
    } else {
      var hi, lo := ds[..|ds| - 3], ds[|ds| - 3..];
      GroupThousandsUngroups(hi);
      WithoutCommasAppend(GroupThousands(hi) + ",", lo);
      WithoutCommasAppend(GroupThousands(hi), ",");
      WithoutCommasOfDigits(lo);
      assert hi + lo == ds;
    }
  }

  /** The en-IN grouping only inserts commas too. */
  lemma GroupIndianUngroups(ds: string)
    requires AllDigits(ds)
    ensures WithoutCommas(GroupIndian(ds)) == ds
  {
    if |ds| <= 3 {
      WithoutCommasOfDigits(ds);
    } else {
      var hi, lo := ds[..|ds| - 3], ds[|ds| - 3..];
      assert AllDigits(hi) by {
        assert forall i :: 0 <= i < |hi| ==> hi[i] == ds[i];
      }
      GroupPairsUngroups(hi);
      WithoutCommasAppend(GroupPairs(hi) + ",", lo);
      WithoutCommasAppend(GroupPairs(hi), ",");
      WithoutCommasOfDigits(lo);
      assert hi + lo == ds;
    }
  }

  lemma {:induction false} GroupPairsUngroups(ds: string)
    requires AllDigits(ds)
    ensures WithoutCommas(GroupPairs(ds)) == ds
    decreases |ds|
  {
    if |ds| <= 2 {
      WithoutCommasOfDigits(ds);
    } else {
      var hi, lo := ds[..|ds| - 2], ds[|ds| - 2..];
      GroupPairsUngroups(hi);
      WithoutCommasAppend(GroupPairs(hi) + ",", lo);
      WithoutCommasAppend(GroupPairs(hi), ",");
      WithoutCommasOfDigits(lo);
      assert hi + lo == ds;
    }
  }

  /** Digits, group separators, a decimal point and a minus sign: what a formatted number is made of. */
  predicate Numeral(s: string)
  {
    forall i :: 0 <= i < |s| ==> IsDigit(s[i]) || s[i] == ',' || s[i] == '.' || s[i] == '-'
  }

  lemma NumeralAppend(a: string, b: string)
    requires Numeral(a) && Numeral(b)
    ensures Numeral(a + b)
  {
    forall i | 0 <= i < |a + b|
      ensures IsDigit((a + b)[i]) || (a + b)[i] == ',' || (a + b)[i] == '.' || (a + b)[i] == '-'
    {
      if i < |a| {
        assert (a + b)[i] == a[i];
      } else {
        assert (a + b)[i] == b[i - |a|];
      }
    }
  }

  lemma {:induction false} GroupThousandsNumeral(ds: string)
    requires AllDigits(ds)
    ensures Numeral(GroupThousands(ds))
    decreases |ds|
  {
    if |ds| > 3 {
      GroupThousandsNumeral(ds[..|ds| - 3]);
      NumeralAppend(GroupThousands(ds[..|ds| - 3]), ",");
      NumeralAppend(GroupThousands(ds[..|ds| - 3]) + ",", ds[|ds| - 3..]);
    }
  }

  lemma {:induction false} GroupPairsNumeral(ds: string)
    requires AllDigits(ds)
    ensures Numeral(GroupPairs(ds))
    decreases |ds|
  {
    if |ds| > 2 {
      GroupPairsNumeral(ds[..|ds| - 2]);
      NumeralAppend(GroupPairs(ds[..|ds| - 2]), ",");
      NumeralAppend(GroupPairs(ds[..|ds| - 2]) + ",", ds[|ds| - 2..]);
    }
  }

  lemma GroupIndianNumeral(ds: string)
    requires AllDigits(ds)
    ensures Numeral(GroupIndian(ds))
  {
    if |ds| > 3 {
      var hi, lo := ds[..|ds| - 3], ds[|ds| - 3..];
      assert AllDigits(hi) && AllDigits(lo) by {
        assert forall i :: 0 <= i < |hi| ==> hi[i] == ds[i];
        assert forall i :: 0 <= i < |lo| ==> lo[i] == ds[|ds| - 3 + i];
      }
      GroupPairsNumeral(hi);
      NumeralAppend(GroupPairs(hi), ",");
      NumeralAppend(GroupPairs(hi) + ",", lo);
    }
  }

  /** Both groupings of an integer are numerals. */
  lemma LocaleIntNumeral(n: int)
    ensures Numeral(LocaleInt(n)) && Numeral(IndianLocaleInt(n))
  {
    var ds := NatToString(if n < 0 then -n else n);
    var sign := if n < 0 then "-" else "";
    GroupThousandsNumeral(ds);
    GroupIndianNumeral(ds);
    NumeralAppend(sign, GroupThousands(ds));
    NumeralAppend(sign, GroupIndian(ds));
    assert LocaleInt(n) == sign + GroupThousands(ds);
    assert IndianLocaleInt(n) == sign + GroupIndian(ds);
  }

  /** Up to five digits en-IN and en-US grouping agree. */
  lemma IndianMatchesThousands(n: int)
    requires -100000 < n < 100000
    ensures IndianLocaleInt(n) == LocaleInt(n)
  {
    var m := if n < 0 then -n else n;
    var ds := NatToString(m);
    if m != 0 {
      DigitsBound(ds);
    }
    assert |ds| <= 5;
    if |ds| > 3 {
      assert GroupPairs(ds[..|ds| - 3]) == ds[..|ds| - 3];
      assert GroupThousands(ds[..|ds| - 3]) == ds[..|ds| - 3];
    }
  }

  /** A digit string without a leading zero of six or more digits is worth at least 100000. */
  lemma {:induction false} DigitsBound(ds: string)
    requires AllDigits(ds) && ds != []
    requires ds[0] != '0'
    ensures |ds| >= 6 ==> DigitsValue(ds) >= 100000
    ensures DigitsValue(ds) >= Pow10(|ds| - 1)
    decreases |ds|
  {
    if |ds| > 1 {
      DigitsBound(ds[..|ds| - 1]);
    }
    if |ds| >= 6 {
      Pow10Grows(|ds| - 1);
    }
  }

  function Pow10(k: nat): (r: nat)
    ensures r >= 1
  {
    if k == 0 then 1 else 10 * Pow10(k - 1)
  }

  lemma Pow10Grows(k: nat)
    requires k >= 5
    ensures Pow10(k) >= 100000
  {
  }
}
