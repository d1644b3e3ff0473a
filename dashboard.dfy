/**
 * The client Dashboard: the favourite subset, its guarded average price,
 * the per-city and per-type tallies with their bars, the count of cities
 * explored and the five most recent favourites.
 */
module Dashboard {
  import opened Wrappers
  import opened Seqs
  import opened Catalog
  import opened PriceFormat
  import ClientApp

  // -----------------------------------------------------------------------
  // The average price

  function Sum(ps: seq<Property>): int
  {
    if ps == [] then 0 else Sum(ps[..|ps| - 1]) + ps[|ps| - 1].price
  }

  function MinPrice(ps: seq<Property>): int
    requires ps != []
  {
    if |ps| == 1 then ps[0].price
    else var m := MinPrice(ps[..|ps| - 1]); if ps[|ps| - 1].price < m then ps[|ps| - 1].price else m
  }

  function MaxPrice(ps: seq<Property>): int
    requires ps != []
  {
    if |ps| == 1 then ps[0].price
    else var m := MaxPrice(ps[..|ps| - 1]); if ps[|ps| - 1].price > m then ps[|ps| - 1].price else m
  }

  /** Every price lies between the least and the greatest, so the sum lies between `|ps|` times each. */
  lemma {:induction false} SumBetween(ps: seq<Property>)
    requires ps != []
    ensures MinPrice(ps) * |ps| <= Sum(ps) <= MaxPrice(ps) * |ps|
    decreases |ps|
  {
    if |ps| > 1 {
      var init := ps[..|ps| - 1];
      SumBetween(init);
      PriceBoundsShrink(init, MinPrice(ps), MaxPrice(ps));
    }
  }

  /** The extreme prices of the whole sequence bound those of its prefix. */
  lemma PriceBoundsShrink(init: seq<Property>, lo: int, hi: int)
    requires init != []
    requires lo <= MinPrice(init) && MaxPrice(init) <= hi
    ensures lo * |init| <= MinPrice(init) * |init| && MaxPrice(init) * |init| <= hi * |init|
  {
    MultiplyLeft(|init|, lo, MinPrice(init));
    MultiplyLeft(|init|, MaxPrice(init), hi);
    assert |init| * lo == lo * |init| && |init| * MinPrice(init) == MinPrice(init) * |init|;
    assert |init| * MaxPrice(init) == MaxPrice(init) * |init| && |init| * hi == hi * |init|;
  }

  /**
   * `avgPrice` as the fraction `num / den`: the sum of the prices over their
   * count, and 0 when there are none.  It lies between the least and the
   * greatest price.
   */
  function AvgPrice(ps: seq<Property>): (r: (int, int))
    ensures r.1 > 0
    ensures ps == [] ==> r.0 == 0
    ensures ps != [] ==> r.1 == |ps| && MinPrice(ps) * r.1 <= r.0 <= MaxPrice(ps) * r.1
  {
    if |ps| > 0 then SumBetween(ps); (Sum(ps), |ps|) else (0, 1)
  }

  /** The "Avg. Favorite Price" card: the formatted average when it is positive, "₹0" otherwise. */
  function AvgPriceCard(ps: seq<Property>): (s: string)
    ensures |s| >= 1 && s[0] == '₹'
    ensures AvgPrice(ps).0 <= 0 ==> s == "₹0"
  {
    var (num, den) := AvgPrice(ps);
    if num > 0 then FormatPrice(num, den) else "₹0"
  }

  /** With no favourites the card reads "₹0". */
  lemma NoFavoritesAverage()
    ensures AvgPriceCard([]) == "₹0"
  {
  }

  /** With favourites of positive mean, the card uses the crore tier exactly when the mean reaches a crore. */
  lemma AverageCardTier(ps: seq<Property>)
    requires AvgPrice(ps).0 > 0
    ensures EndsWith(AvgPriceCard(ps), " Cr") <==> AvgPrice(ps).0 >= Crore * AvgPrice(ps).1
  {
    FormatPriceTiers(AvgPrice(ps).0, AvgPrice(ps).1);
  }

  // -----------------------------------------------------------------------
  // Distributions

  /** How often `k` occurs in `ks`. */
  function Occurrences(ks: seq<string>, k: string): nat
  {
    if ks == [] then 0 else Occurrences(ks[..|ks| - 1], k) + (if ks[|ks| - 1] == k then 1 else 0)
  }

  /** The distinct keys of `ks`, in order of first occurrence: the order `Object.keys` reports them in. */
  function Distinct(ks: seq<string>): seq<string>
  {
    if ks == [] then []
    else
      var d := Distinct(ks[..|ks| - 1]);
      if ks[|ks| - 1] in d then d else d + [ks[|ks| - 1]]
  }

  /** The key of each property, in order. */
  function Keys(ps: seq<Property>, key: Property -> string): (r: seq<string>)
    ensures |r| == |ps| && forall i :: 0 <= i < |ps| ==> r[i] == key(ps[i])
  {
    seq(|ps|, i requires 0 <= i < |ps| => key(ps[i]))
  }

  function CityOf(): Property -> string { (p: Property) => p.city }
  function TypeOf(): Property -> string { (p: Property) => TypeName(p.propertyType) }

  /**
   * The `reduce` that builds `cityDistribution` or `typeDistribution`:
   * `acc[key] = (acc[key] || 0) + 1` for each property in turn.  `order` is
   * the order in which keys were first created.
   */
  method Distribution(ps: seq<Property>, key: Property -> string) returns (order: seq<string>, acc: map<string, int>)
    ensures order == Distinct(Keys(ps, key))
    ensures forall k :: k in acc <==> k in Keys(ps, key)
    ensures forall k :: k in acc ==> acc[k] == Occurrences(Keys(ps, key), k)
  {
    order := [];
    acc := map[];
    ghost var seen: seq<string> := [];
    var i := 0;
    while i < |ps|
      invariant 0 <= i <= |ps|
      invariant seen == Keys(ps[..i], key)
      invariant order == Distinct(seen)
      invariant forall k :: k in acc <==> k in seen
      invariant forall k :: k in acc ==> acc[k] == Occurrences(seen, k)
    {
      var k := key(ps[i]);
      OrderStep(seen, k, order);
      var previous := if k in acc then acc[k] else 0;
      if k !in acc {
        order := order + [k];
      }
      CountStep(seen, k, acc, acc[k := previous + 1]);
      acc := acc[k := previous + 1];
      KeysStep(ps, i, key);
      seen := seen + [k];
      i := i + 1;
    }
    assert ps[..|ps|] == ps;
  }

  lemma KeysStep(ps: seq<Property>, i: int, key: Property -> string)
    requires 0 <= i < |ps|
    ensures Keys(ps[..i + 1], key) == Keys(ps[..i], key) + [key(ps[i])]
  {
  }

  /** One step of the key order: a key is appended the first time it is seen. */
  lemma OrderStep(before: seq<string>, k: string, order: seq<string>)
    requires order == Distinct(before)
    ensures (if k in before then order else order + [k]) == Distinct(before + [k])
  {
    var after := before + [k];
    assert after[..|after| - 1] == before && after[|after| - 1] == k;
    DistinctListsEachOnce(before);
  }

  /** One step of the tally: counting `k` after `before` yields the tally of `before + [k]`. */
  lemma CountStep(before: seq<string>, k: string, acc: map<string, int>, next: map<string, int>)
    requires forall j :: j in acc <==> j in before
    requires forall j :: j in acc ==> acc[j] == Occurrences(before, j)
    requires next == acc[k := (if k in acc then acc[k] else 0) + 1]
    ensures forall j :: j in next <==> j in before + [k]
    ensures forall j :: j in next ==> next[j] == Occurrences(before + [k], j)
  {
    var after := before + [k];
    assert after[..|after| - 1] == before && after[|after| - 1] == k;
    forall j | j in next
      ensures next[j] == Occurrences(after, j)
    {
      if j != k {
        assert Occurrences(after, j) == Occurrences(before, j);
      } else if k !in acc {
        OccurrencesOfAbsent(before, k);
      }
    }
  }

  /** A key is listed exactly when it occurs, and no key is listed twice. */
  lemma {:induction false} DistinctListsEachOnce(ks: seq<string>)
    ensures forall k :: k in Distinct(ks) <==> k in ks
    ensures forall i, j :: 0 <= i < j < |Distinct(ks)| ==> Distinct(ks)[i] != Distinct(ks)[j]
  {
    if ks != [] {
      var init := ks[..|ks| - 1];
      DistinctListsEachOnce(init);
      assert ks == init + [ks[|ks| - 1]];
    }
  }

  /** The number of listed keys is the number of distinct keys: "Cities Explored". */
  lemma {:induction false} DistinctCount(ks: seq<string>)
    ensures |Distinct(ks)| == |set k | k in ks|
  {
    if ks != [] {
      var init := ks[..|ks| - 1];
      var x := ks[|ks| - 1];
      DistinctCount(init);
      DistinctListsEachOnce(init);
      assert ks == init + [x];
      assert (set k | k in ks) == (set k | k in init) + {x};
      if x in init {
        assert (set k | k in ks) == (set k | k in init);
      } else {
        assert x !in (set k | k in init);
      }
    }
  }

  /** The total of the counts of the listed keys. */
  function Total(order: seq<string>, ks: seq<string>): int
  {
    if order == [] then 0 else Total(order[..|order| - 1], ks) + Occurrences(ks, order[|order| - 1])
  }

  /** Appending one key raises the count of that key alone. */
  lemma {:induction false} TotalAppend(order: seq<string>, ks: seq<string>, x: string)
    ensures Total(order, ks + [x]) == Total(order, ks) + Occurrences(order, x)
    decreases |order|
  {
    if order != [] {
      var init := order[..|order| - 1];
      TotalAppend(init, ks, x);
      assert (ks + [x])[..|ks + [x]| - 1] == ks;
    }
  }

  lemma {:induction false} OccurrencesOfAbsent(ks: seq<string>, x: string)
    requires x !in ks
    ensures Occurrences(ks, x) == 0
  {
    if ks != [] {
      OccurrencesOfAbsent(ks[..|ks| - 1], x);
    }
  }

  lemma {:induction false} OccurrencesOfPresent(ks: seq<string>, x: string)
    requires x in ks
    ensures 1 <= Occurrences(ks, x) <= |ks|
  {
    if ks[|ks| - 1] != x {
      OccurrencesOfPresent(ks[..|ks| - 1], x);
    } else if x in ks[..|ks| - 1] {
      OccurrencesOfPresent(ks[..|ks| - 1], x);
    } else {
      OccurrencesOfAbsent(ks[..|ks| - 1], x);
    }
  }

  /** The counts of a distribution add up to the number of properties tallied. */
  lemma {:induction false} CountsAddUp(ks: seq<string>)
    ensures Total(Distinct(ks), ks) == |ks|
  {
    if ks != [] {
      var init := ks[..|ks| - 1];
      var x := ks[|ks| - 1];
      var d := Distinct(init);
      CountsAddUp(init);
      DistinctListsEachOnce(init);
      assert ks == init + [x];
      TotalAppend(d, init, x);
      if x in d {
        OccurrencesOfPresent(d, x);
        OnceEach(d, x);
      } else {
        OccurrencesOfAbsent(d, x);
        OccurrencesOfAbsent(init, x);
        assert Distinct(ks) == d + [x];
        assert (d + [x])[..|d|] == d;
      }
    }
  }

  /** In a list without repeats a listed key occurs once. */
  lemma {:induction false} OnceEach(d: seq<string>, x: string)
    requires x in d
    requires forall i, j :: 0 <= i < j < |d| ==> d[i] != d[j]
    ensures Occurrences(d, x) == 1
  {
    var init := d[..|d| - 1];
    if d[|d| - 1] == x {
      assert x !in init;
      OccurrencesOfAbsent(init, x);
    } else {
      OnceEach(init, x);
    }
  }

  // -----------------------------------------------------------------------
  // Bars

  /** A bar's width in percent: `count / favorites.size * 100`. */
  function BarWidth(count: int, size: int): real
    requires size > 0
  {
    count as real / size as real * 100.0
  }

  /** The chosen properties carry distinct ids, all favourites: at most as many as there are favourites. */
  lemma {:induction false} AtMostOnePerFavorite(ps: seq<Property>, favorites: set<int>)
    requires UniqueIds(ps)
    requires forall p :: p in ps ==> p.id in favorites
    ensures |ps| <= |favorites|
  {
    if ps != [] {
      var last := ps[|ps| - 1];
      var init := ps[..|ps| - 1];
      forall p | p in init
        ensures p.id in favorites - {last.id}
      {
        var j :| 0 <= j < |init| && init[j] == p;
        assert ps[j] == p;
      }
      assert last in ps;
      AtMostOnePerFavorite(init, favorites - {last.id});
    }
  }

  /** Filtering keeps ids unique. */
  lemma {:induction false} FilterKeepsIdsUnique(ps: seq<Property>, keep: Property -> bool)
    requires UniqueIds(ps)
    ensures UniqueIds(Filter(ps, keep))
  {
    if ps != [] {
      FilterKeepsIdsUnique(ps[1..], keep);
      FilterMembers(ps[1..], keep);
      var rest := Filter(ps[1..], keep);
      forall p | p in rest
        ensures p.id != ps[0].id
      {
        var j :| 0 <= j < |ps[1..]| && ps[1..][j] == p;
        assert ps[j + 1] == p;
      }
      if keep(ps[0]) {
        var r := Filter(ps, keep);
        assert r == [ps[0]] + rest;
        forall i, j | 0 <= i < j < |r|
          ensures r[i].id != r[j].id
        {
          if i == 0 {
            assert r[j] == rest[j - 1];
          } else {
            assert r[i] == rest[i - 1] && r[j] == rest[j - 1];
          }
        }
      }
    }
  }

  /** With unique ids, every bar of the favourite subset is wider than 0% and at most 100%. */
  lemma BarsWithinRange(properties: seq<Property>, favorites: set<int>, key: Property -> string, k: string)
    requires UniqueIds(properties)
    requires k in Keys(ClientApp.FavoriteProperties(properties, favorites), key)
    ensures |favorites| > 0
    ensures 0.0 < BarWidth(Occurrences(Keys(ClientApp.FavoriteProperties(properties, favorites), key), k), |favorites|) <= 100.0
  {
    var favs := ClientApp.FavoriteProperties(properties, favorites);
    var ks := Keys(favs, key);
    FilterKeepsIdsUnique(properties, (p: Property) => p.id in favorites);
    AtMostOnePerFavorite(favs, favorites);
    OccurrencesOfPresent(ks, k);
    WidthBounds(Occurrences(ks, k), |favorites|);
  }

  lemma WidthBounds(count: int, size: int)
    requires 1 <= count <= size
    ensures 0.0 < BarWidth(count, size) <= 100.0
  {
    var q := count as real / size as real;
    assert q * size as real == count as real;
    assert 0.0 < q <= 1.0;
  }

  // -----------------------------------------------------------------------
  // Recent favourites and the whole view

  /** `slice(0, 5)`: the first five favourites, or all of them when fewer. */
  function Recent(ps: seq<Property>): (r: seq<Property>)
    ensures |r| == (if |ps| < 5 then |ps| else 5)
    ensures r <= ps
  {
    if |ps| < 5 then ps else ps[..5]
  }

  datatype Bar = Bar(name: string, count: int)

  /** What the Dashboard shows. */
  datatype View = View(
    totalFavorites: int,
    totalProperties: int,
    avgPrice: string,
    citiesExplored: int,
    cityBars: seq<Bar>,
    typeBars: seq<Bar>,
    recent: seq<Property>)

  /** Pairs each listed key with its count. */
  function Bars(order: seq<string>, acc: map<string, int>): (r: seq<Bar>)
    requires forall k :: k in order ==> k in acc
    ensures |r| == |order|
    ensures forall i :: 0 <= i < |r| ==> r[i] == Bar(order[i], acc[order[i]])
  {
    seq(|order|, i requires 0 <= i < |order| => Bar(order[i], acc[order[i]]))
  }

  /** Renders the Dashboard for the favourites set over the catalog. */
  method Render(favorites: set<int>, properties: seq<Property>) returns (v: View)
    ensures var favs := ClientApp.FavoriteProperties(properties, favorites);
            && v.totalFavorites == |favorites| && v.totalProperties == |properties|
            && v.avgPrice == AvgPriceCard(favs)
            && v.citiesExplored == |set k | k in Keys(favs, CityOf())|
            && |v.cityBars| == |Distinct(Keys(favs, CityOf()))|
            && (forall i :: 0 <= i < |v.cityBars| ==>
                  v.cityBars[i] == Bar(Distinct(Keys(favs, CityOf()))[i], Occurrences(Keys(favs, CityOf()), Distinct(Keys(favs, CityOf()))[i])))
            && |v.typeBars| == |Distinct(Keys(favs, TypeOf()))|
            && (forall i :: 0 <= i < |v.typeBars| ==>
                  v.typeBars[i] == Bar(Distinct(Keys(favs, TypeOf()))[i], Occurrences(Keys(favs, TypeOf()), Distinct(Keys(favs, TypeOf()))[i])))
            && v.recent == Recent(favs)
  {
    var favs := ClientApp.FavoriteProperties(properties, favorites);
    var cityOrder, cityDistribution := Distribution(favs, CityOf());
    var typeOrder, typeDistribution := Distribution(favs, TypeOf());
    DistinctListsEachOnce(Keys(favs, CityOf()));
    DistinctListsEachOnce(Keys(favs, TypeOf()));
    DistinctCount(Keys(favs, CityOf()));
    v := View(|favorites|, |properties|, AvgPriceCard(favs), |cityOrder|,
              Bars(cityOrder, cityDistribution), Bars(typeOrder, typeDistribution), Recent(favs));
  }
}
