/**
 * Money arithmetic of the sales and purchase-lot features: platform fees,
 * net profit, markup, the ".99" price ending, and the two ways a lot's
 * total cost is split over its items. Amounts are exact dollars; every
 * `Math.round(x * 100) / 100` of the source is `RoundCents`.
 */
module Finance {
  import opened Wrappers
  import opened Types

  /** The platform's fee as a fraction of the sale price. */
  function FeeRate(p: SalePlatform): real
  {
    match p
    case Whatnot => 0.095
    case Ebay => 0.1325
    case Bricklink => 0.03
    case Mercari => 0.10
    case OtherPlatform => 0.0
  }

  /** `getPlatformFee`: the sale price times the platform rate, to the nearest cent. */
  function PlatformFee(salePrice: real, platform: SalePlatform): (r: real)
    ensures IsCents(r)
    ensures salePrice * FeeRate(platform) - 0.005 < r <= salePrice * FeeRate(platform) + 0.005
    ensures platform == OtherPlatform ==> r == 0.0
  {
    RoundCents(salePrice * FeeRate(platform))
  }

  /** `calculateNetProfit`: sale − fee − cost − shipping cost + shipping charged, to the nearest cent. */
  function NetProfit(salePrice: real, platformFee: real, costBasis: real, shippingCost: real, shippingCharged: real): (r: real)
    ensures IsCents(r)
    ensures var exact := salePrice - platformFee - costBasis - shippingCost + shippingCharged;
      exact - 0.005 < r <= exact + 0.005
  {
    RoundCents(salePrice - platformFee - costBasis - shippingCost + shippingCharged)
  }

  /** Rounding an amount that is already whole cents changes nothing. */
  lemma RoundCentsExact(x: real)
    requires IsCents(x)
    ensures RoundCents(x) == x
  {
    var c := (x * 100.0).Floor;
    assert x * 100.0 == c as real;
    assert Round(x * 100.0) == c;
  }

  /** With whole-cent inputs the net profit is exact. */
  lemma NetProfitExact(salePrice: real, platformFee: real, costBasis: real, shippingCost: real, shippingCharged: real)
    requires IsCents(salePrice) && IsCents(platformFee) && IsCents(costBasis)
    requires IsCents(shippingCost) && IsCents(shippingCharged)
    ensures NetProfit(salePrice, platformFee, costBasis, shippingCost, shippingCharged)
         == salePrice - platformFee - costBasis - shippingCost + shippingCharged
  {
    var exact := salePrice - platformFee - costBasis - shippingCost + shippingCharged;
    CentsOf(salePrice);
    CentsOf(platformFee);
    CentsOf(costBasis);
    CentsOf(shippingCost);
    CentsOf(shippingCharged);
    var c := Cents(salePrice) - Cents(platformFee) - Cents(costBasis) - Cents(shippingCost) + Cents(shippingCharged);
    assert exact * 100.0 == c as real;
    FloorOfInt(c);
    RoundCentsExact(exact);
  }

  /** `applyMarkup`: the cost raised by `markupPercent` percent, to the nearest cent. */
  function ApplyMarkup(cost: real, markupPercent: real): (r: real)
    ensures IsCents(r)
    ensures var exact := cost * (1.0 + markupPercent / 100.0);
      exact - 0.005 < r <= exact + 0.005
  {
    RoundCents(cost * (1.0 + markupPercent / 100.0))
  }

  /** A zero markup leaves a whole-cent cost as it is. */
  lemma ApplyMarkupZero(cost: real)
    requires IsCents(cost)
    ensures ApplyMarkup(cost, 0.0) == cost
  {
    RoundCentsExact(cost);
  }

  /** `roundTo99`: the same whole dollars, with 99 cents. */
  function RoundTo99(price: real): (r: real)
    ensures Floor(r) == Floor(price)
    ensures r - Floor(r) as real == 0.99
    ensures IsCents(r)
    ensures price - 0.01 < r <= price + 0.99
  {
    var f := Floor(price);
    assert (f as real + 0.99) * 100.0 == (f * 100 + 99) as real;
    FloorOfInt(f * 100 + 99);
    FloorShift(0.99, f);
    f as real + 0.99
  }

  /** A price that already ends in .99 keeps it. */
  lemma RoundTo99Idempotent(price: real)
    ensures RoundTo99(RoundTo99(price)) == RoundTo99(price)
  {
  }

  /** `applyMarkupAndRound`: the markup, then the .99 ending only when asked for. */
  function ApplyMarkupAndRound(cost: real, markupPercent: real, doRound: bool): (r: real)
    ensures IsCents(r)
    ensures !doRound ==> r == ApplyMarkup(cost, markupPercent)
    ensures doRound ==> Floor(r) == Floor(ApplyMarkup(cost, markupPercent)) && r - Floor(r) as real == 0.99
  {
    var price := ApplyMarkup(cost, markupPercent);
    if doRound then RoundTo99(price) else price
  }

  // ---------------------------------------------------------------------
  // Cost splitting
  // ---------------------------------------------------------------------

  /** `xs.reduce((s, x) => s + x, 0)`. */
  function Sum(xs: seq<real>): real
  {
    if xs == [] then 0.0 else xs[0] + Sum(xs[1..])
  }

  /** The equal share of each item in whole cents, rounded down. */
  function EqualBase(totalCost: real, itemCount: nat): real
    requires itemCount > 0
  {
    Floor(totalCost / itemCount as real * 100.0) as real / 100.0
  }

  /** What the base shares leave of the total, to the nearest cent. */
  function EqualRemainder(totalCost: real, itemCount: nat): real
    requires itemCount > 0
  {
    RoundCents(totalCost - EqualBase(totalCost, itemCount) * itemCount as real)
  }

  /** How many items receive one extra cent in an equal split. */
  function EqualExtraCents(totalCost: real, itemCount: nat): int
    requires itemCount > 0
  {
    Round(EqualRemainder(totalCost, itemCount) * 100.0)
  }

  /** The parts an equal split produces: the base share, plus a cent for the first few. */
  function EqualSplit(totalCost: real, itemCount: nat): seq<real>
  {
    if itemCount == 0 then []
    else
      var base := EqualBase(totalCost, itemCount);
      var extra := EqualExtraCents(totalCost, itemCount);
      seq(itemCount, i => if i < extra then base + 0.01 else base)
  }

  /** `Math.round((c + 0.01) * 100) / 100` adds exactly one cent to a whole-cent amount. */
  lemma AddCent(c: real)
    requires IsCents(c)
    ensures RoundCents(c + 0.01) == c + 0.01
  {
    assert ((c + 0.01) * 100.0).Floor as real == (c + 0.01) * 100.0 by {
      assert (c + 0.01) * 100.0 == c * 100.0 + 1.0;
    }
    RoundCentsExact(c + 0.01);
  }

  /** `n * x` stays between `n * lo` and `n * hi` for a positive `n`. */
  lemma ScaleBounds(n: real, x: real, lo: real, hi: real)
    requires n > 0.0 && lo <= x < hi
    ensures n * lo <= n * x < n * hi
  {
    assert n * (x - lo) >= 0.0;
    assert n * (hi - x) > 0.0;
  }

  /** `n` shares of `x / 100` each, with `x` rounded down to `f`, leave less than `n` of the total. */
  lemma ShareBounds(totalCost: real, n: real, x: real, f: real)
    requires n > 0.0 && x == totalCost / n * 100.0 && f <= x < f + 1.0
    ensures 0.0 <= totalCost * 100.0 - n * f < n
  {
    assert n * x == totalCost * 100.0;
    ScaleBounds(n, x, f, f + 1.0);
  }

  /** The cast to `real` distributes over a product. */
  lemma CastMul(a: int, b: int)
    ensures (a * b) as real == a as real * b as real
  {
  }

  /** `n` parts of `f` cents plus `e` extra cents, in dollars. */
  lemma PartsTotal(n: nat, base: real, f: int, e: int)
    requires base * 100.0 == f as real
    ensures n as real * base + e as real * 0.01 == (n * f + e) as real / 100.0
  {
    CastMul(n, f);
    assert n as real * base == n as real * f as real / 100.0;
  }

  /**
   * The whole-cent quantities of an equal split: the base share is `f`
   * cents, and the leftover `y` (in cents) lies in [0, itemCount), so the
   * extra cents fit.
   */
  lemma EqualParts(totalCost: real, itemCount: nat) returns (f: int, y: real)
    requires itemCount > 0
    ensures f == Floor(totalCost / itemCount as real * 100.0)
    ensures EqualBase(totalCost, itemCount) * 100.0 == f as real
    ensures y == totalCost * 100.0 - (itemCount * f) as real
    ensures 0.0 <= y < itemCount as real
    ensures EqualExtraCents(totalCost, itemCount) == Round(y)
    ensures 0 <= Round(y) <= itemCount
  {
    f, y := BaseShare(totalCost, itemCount);
    LeftoverCents(totalCost, itemCount, f, y);
  }

  /** The base share is `f` whole cents, and `n` of them leave `y` cents, in [0, n). */
  lemma BaseShare(totalCost: real, itemCount: nat) returns (f: int, y: real)
    requires itemCount > 0
    ensures f == Floor(totalCost / itemCount as real * 100.0)
    ensures y == totalCost * 100.0 - (itemCount * f) as real
    ensures y == totalCost * 100.0 - itemCount as real * f as real
    ensures 0.0 <= y < itemCount as real
  {
    f := Floor(totalCost / itemCount as real * 100.0);
    ShareBounds(totalCost, itemCount as real, totalCost / itemCount as real * 100.0, f as real);
    CastMul(itemCount, f);
    y := totalCost * 100.0 - (itemCount * f) as real;
  }

  /** The leftover of an equal split, in cents, rounded, is the count of extra cents. */
  lemma LeftoverCents(totalCost: real, itemCount: nat, f: int, y: real)
    requires itemCount > 0
    requires f == Floor(totalCost / itemCount as real * 100.0)
    requires y == totalCost * 100.0 - itemCount as real * f as real
    ensures EqualExtraCents(totalCost, itemCount) == Round(y)
  {
    var z := totalCost - EqualBase(totalCost, itemCount) * itemCount as real;
    assert z * 100.0 == y;
    RoundedRemainder(z, y);
  }

  /** An amount `z` of `y` cents rounds to `Round(y)` cents, and counts `Round(y)` cents back. */
  lemma RoundedRemainder(z: real, y: real)
    requires z * 100.0 == y
    ensures Round(RoundCents(z) * 100.0) == Round(y)
  {
    var r := Round(y);
    assert RoundCents(z) * 100.0 == r as real;
    RoundOfInt(r);
  }

  /** A sequence of `c` copies of `b + d` followed by copies of `b` sums to `|s|·b + c·d`. */
  lemma {:induction false} SumSteps(s: seq<real>, b: real, d: real, c: int)
    requires 0 <= c <= |s|
    requires forall i :: 0 <= i < |s| ==> s[i] == (if i < c then b + d else b)
    ensures Sum(s) == |s| as real * b + c as real * d
  {
    if s != [] {
      SumSteps(s[1..], b, d, if c > 0 then c - 1 else 0);
    }
  }

  /** The parts of an equal split add up to the total, to the nearest cent. */
  lemma EqualSplitSum(totalCost: real, itemCount: nat)
    requires itemCount > 0
    ensures |EqualSplit(totalCost, itemCount)| == itemCount
    ensures Sum(EqualSplit(totalCost, itemCount)) == RoundCents(totalCost)
  {
    var s := EqualSplit(totalCost, itemCount);
    var base := EqualBase(totalCost, itemCount);
    var extra := EqualExtraCents(totalCost, itemCount);
    var f, y := EqualParts(totalCost, itemCount);
    SumSteps(s, base, 0.01, extra);
    PartsTotal(itemCount, base, f, extra);
    var k := itemCount * f;
    assert Sum(s) == (k + extra) as real / 100.0;
    RoundShift(y, k);
    assert y + k as real == totalCost * 100.0;
    RoundedCents(totalCost, k + extra);
  }

  /** An amount of `c` cents, rounded, rounds to `c / 100` dollars. */
  lemma RoundedCents(x: real, c: int)
    requires Round(x * 100.0) == c
    ensures RoundCents(x) == c as real / 100.0
  {
  }

  /** Every part is whole cents and no part differs from another by more than one cent. */
  lemma EqualSplitBalanced(totalCost: real, itemCount: nat)
    ensures var s := EqualSplit(totalCost, itemCount);
      (forall i :: 0 <= i < |s| ==> IsCents(s[i])) &&
      (forall i, j :: 0 <= i < j < |s| ==> s[j] <= s[i] <= s[j] + 0.01)
  {
    if itemCount > 0 {
      var s := EqualSplit(totalCost, itemCount);
      var base := EqualBase(totalCost, itemCount);
      var extra := EqualExtraCents(totalCost, itemCount);
      var f := Floor(totalCost / itemCount as real * 100.0);
      assert base * 100.0 == f as real;
      assert (base + 0.01) * 100.0 == (f + 1) as real;
      assert IsCents(base) && IsCents(base + 0.01);
      assert forall i :: 0 <= i < |s| ==> s[i] == if i < extra then base + 0.01 else base;
    }
  }

  /** Each part is within a cent of the exact share `totalCost / itemCount`. */
  lemma EqualSplitNearShare(totalCost: real, itemCount: nat)
    requires itemCount > 0
    ensures var s := EqualSplit(totalCost, itemCount);
      forall i :: 0 <= i < |s| ==> totalCost / itemCount as real - 0.01 < s[i] <= totalCost / itemCount as real + 0.01
  {
  }

  /** `(c / n as real).Floor` is integer division for a positive `n`. */
  lemma FloorDiv(c: int, n: nat)
    requires n > 0
    ensures (c as real / n as real).Floor == c / n
    ensures c - n * (c / n) == c % n
  {
    var q, r := c / n, c % n;
    assert c == q * n + r;
    assert c as real / n as real == q as real + r as real / n as real;
    assert 0.0 <= r as real / n as real < 1.0;
  }

  /** A total of `c` cents shared by `n` is `c / n` cents each. */
  lemma ShareInCents(totalCost: real, n: real, c: int)
    requires n > 0.0 && totalCost * 100.0 == c as real
    ensures totalCost / n * 100.0 == c as real / n
  {
    assert totalCost / n * 100.0 * n == c as real;
  }

  /**
   * In whole cents: with a total of `C` cents over `n` items, every part is
   * `C / n` cents and the first `C % n` parts get one cent more.
   */
  lemma EqualSplitInCents(totalCost: real, itemCount: nat)
    requires itemCount > 0 && IsCents(totalCost)
    ensures var s := EqualSplit(totalCost, itemCount);
      var c := Cents(totalCost);
      |s| == itemCount &&
      forall i :: 0 <= i < itemCount ==> s[i] * 100.0 == (c / itemCount + (if i < c % itemCount then 1 else 0)) as real
  {
    var c := Cents(totalCost);
    CentsOf(totalCost);
    ShareInCents(totalCost, itemCount as real, c);
    FloorDiv(c, itemCount);
    var f, y := EqualParts(totalCost, itemCount);
    assert f == c / itemCount;
    assert y == (c - itemCount * f) as real;
    RoundOfInt(c % itemCount);
    assert EqualExtraCents(totalCost, itemCount) == c % itemCount;
  }

  /** `splitCostEqual`: fills an array with the base share, then adds the leftover cents one by one. */
  method SplitCostEqual(totalCost: real, itemCount: nat) returns (costs: seq<real>)
    ensures costs == EqualSplit(totalCost, itemCount)
  {
    if itemCount == 0 {
      return [];
    }
    var base := EqualBase(totalCost, itemCount);
    var a := new real[itemCount](_ => base);
    var remainder := EqualRemainder(totalCost, itemCount);
    var centsLeft := Round(remainder * 100.0);
    var f, y := EqualParts(totalCost, itemCount);
    IsCentsOf(f);
    var i := 0;
    while i < centsLeft
      invariant 0 <= i <= centsLeft <= itemCount
      invariant forall k :: 0 <= k < itemCount ==> a[k] == (if k < i then base + 0.01 else base)
    {
      AddCent(base);
      a[i] := RoundCents(a[i] + 0.01);
      i := i + 1;
    }
    costs := a[..];
  }

  /** `marketValues.map(v => v ?? 0)`. */
  function ValuesOrZero(marketValues: seq<Option<real>>): (r: seq<real>)
    ensures |r| == |marketValues|
    ensures forall i :: 0 <= i < |r| ==> r[i] == marketValues[i].GetOr(0.0)
  {
    seq(|marketValues|, i requires 0 <= i < |marketValues| => marketValues[i].GetOr(0.0))
  }

  /** An item's exact proportional share of the total cost. */
  function Share(value: real, totalValue: real, totalCost: real): real
    requires totalValue != 0.0
  {
    value / totalValue * totalCost
  }

  /** Each item's proportional share of the total, rounded down to the cent. */
  function FloorShares(totalCost: real, values: seq<real>, totalValue: real): (r: seq<real>)
    requires totalValue != 0.0
    ensures |r| == |values|
    ensures forall i :: 0 <= i < |r| ==> IsCents(r[i])
    ensures forall i :: 0 <= i < |r| ==>
      Share(values[i], totalValue, totalCost) - 0.01 < r[i] <= Share(values[i], totalValue, totalCost)
  {
    seq(|values|, i requires 0 <= i < |values| => FloorCents(Share(values[i], totalValue, totalCost)))
  }

  /** The parts a by-market-value split produces. */
  function MarketSplit(totalCost: real, marketValues: seq<Option<real>>): seq<real>
  {
    var values := ValuesOrZero(marketValues);
    var totalValue := Sum(values);
    if totalValue == 0.0 then EqualSplit(totalCost, |values|)
    else
      var floors := FloorShares(totalCost, values, totalValue);
      var remainder := Round((totalCost - Sum(floors)) * 100.0);
      seq(|floors|, i requires 0 <= i < |floors| => if i < remainder then floors[i] + 0.01 else floors[i])
  }

  lemma ShareAdd(a: real, b: real, v: real, totalCost: real)
    requires v != 0.0
    ensures Share(a, v, totalCost) + Share(b, v, totalCost) == Share(a + b, v, totalCost)
  {
    assert a / v + b / v == (a + b) / v;
  }

  /** The shares of all items add up to the sum of their values over the total value, times the total cost. */
  lemma {:induction false} SumShares(values: seq<real>, v: real, totalCost: real)
    requires v != 0.0
    ensures Sum(seq(|values|, i requires 0 <= i < |values| => Share(values[i], v, totalCost))) == Share(Sum(values), v, totalCost)
  {
    var t := seq(|values|, i requires 0 <= i < |values| => Share(values[i], v, totalCost));
    if values == [] {
      assert Share(0.0, v, totalCost) == 0.0;
    } else {
      var t1 := seq(|values[1..]|, i requires 0 <= i < |values[1..]| => Share(values[1..][i], v, totalCost));
      assert t[1..] == t1 by {
        forall j | 0 <= j < |t1| ensures t[1..][j] == t1[j] {
          assert t[1..][j] == Share(values[j + 1], v, totalCost);
        }
      }
      SumShares(values[1..], v, totalCost);
      ShareAdd(values[0], Sum(values[1..]), v, totalCost);
    }
  }

  /** Parts that each undershoot by less than a cent undershoot in sum by less than a cent per part. */
  lemma {:induction false} FloorGap(xs: seq<real>, floors: seq<real>)
    requires |xs| == |floors|
    requires forall i :: 0 <= i < |xs| ==> xs[i] - 0.01 < floors[i] <= xs[i]
    ensures Sum(xs) - 0.01 * |xs| as real <= Sum(floors) <= Sum(xs)
    ensures |xs| > 0 ==> Sum(xs) - 0.01 * |xs| as real < Sum(floors)
  {
    if xs != [] {
      FloorGap(xs[1..], floors[1..]);
    }
  }

  /** The floors lose less than a cent per item: the leftover is in [0, n) cents. */
  lemma MarketLeftover(totalCost: real, values: seq<real>)
    requires Sum(values) != 0.0
    ensures var floors := FloorShares(totalCost, values, Sum(values));
      var y := (totalCost - Sum(floors)) * 100.0;
      0.0 <= y < |values| as real && 0 <= Round(y) <= |values|
  {
    var v := Sum(values);
    var xs := seq(|values|, i requires 0 <= i < |values| => Share(values[i], v, totalCost));
    SumShares(values, v, totalCost);
    assert Share(v, v, totalCost) == totalCost by { assert v / v == 1.0; }
    var floors := FloorShares(totalCost, values, v);
    FloorGap(xs, floors);
  }

  /** Sums of whole-cent amounts are whole cents. */
  lemma {:induction false} SumCents(xs: seq<real>)
    requires forall i :: 0 <= i < |xs| ==> IsCents(xs[i])
    ensures IsCents(Sum(xs))
  {
    if xs != [] {
      SumCents(xs[1..]);
      var a, b := Cents(xs[0]), Cents(Sum(xs[1..]));
      CentsOf(xs[0]);
      CentsOf(Sum(xs[1..]));
      assert Sum(xs) * 100.0 == (a + b) as real;
      FloorOfInt(a + b);
    }
  }

  /** Adding one cent to the first `c` entries adds `c` cents to the sum. */
  lemma {:induction false} SumBumped(floors: seq<real>, c: int, s: seq<real>)
    requires 0 <= c <= |floors| == |s|
    requires forall i :: 0 <= i < |s| ==> s[i] == (if i < c then floors[i] + 0.01 else floors[i])
    ensures Sum(s) == Sum(floors) + c as real * 0.01
  {
    if s != [] {
      SumBumped(floors[1..], if c > 0 then c - 1 else 0, s[1..]);
    }
  }

  /**
   * The parts of a by-market-value split add up to the total, to the nearest
   * cent, and there is one part per item.
   */
  lemma MarketSplitSum(totalCost: real, marketValues: seq<Option<real>>)
    requires |marketValues| > 0
    ensures |MarketSplit(totalCost, marketValues)| == |marketValues|
    ensures Sum(MarketSplit(totalCost, marketValues)) == RoundCents(totalCost)
  {
    var values := ValuesOrZero(marketValues);
    var v := Sum(values);
    if v == 0.0 {
      EqualSplitSum(totalCost, |values|);
    } else {
      var floors := FloorShares(totalCost, values, v);
      MarketLeftover(totalCost, values);
      var y := (totalCost - Sum(floors)) * 100.0;
      var rem := Round(y);
      SumBumped(floors, rem, MarketSplit(totalCost, marketValues));
      SumCents(floors);
      var fc := Cents(Sum(floors));
      CentsOf(Sum(floors));
      RoundShift(y, fc);
      assert y + fc as real == totalCost * 100.0;
    }
  }

  /** Every value is null or zero: the by-market-value split falls back to the equal split. */
  lemma MarketSplitFallback(totalCost: real, marketValues: seq<Option<real>>)
    requires forall i :: 0 <= i < |marketValues| ==> marketValues[i].GetOr(0.0) == 0.0
    ensures MarketSplit(totalCost, marketValues) == EqualSplit(totalCost, |marketValues|)
  {
    var values := ValuesOrZero(marketValues);
    assert Sum(values) == 0.0 by { SumZero(values); }
  }

  lemma {:induction false} SumZero(xs: seq<real>)
    requires forall i :: 0 <= i < |xs| ==> xs[i] == 0.0
    ensures Sum(xs) == 0.0
  {
    if xs != [] {
      SumZero(xs[1..]);
    }
  }

  /** Each part of a by-market-value split is within a cent of the item's proportional share. */
  lemma MarketSplitNearShare(totalCost: real, marketValues: seq<Option<real>>, i: nat)
    requires i < |marketValues|
    requires Sum(ValuesOrZero(marketValues)) != 0.0
    ensures var values := ValuesOrZero(marketValues);
      var share := Share(values[i], Sum(values), totalCost);
      var s := MarketSplit(totalCost, marketValues);
      i < |s| && share - 0.01 < s[i] <= share + 0.01
  {
  }

  /** With a whole-cent total the leftover cents are fewer than the item count. */
  lemma MarketLeftoverWholeCents(totalCost: real, marketValues: seq<Option<real>>)
    requires IsCents(totalCost) && Sum(ValuesOrZero(marketValues)) != 0.0
    ensures var values := ValuesOrZero(marketValues);
      var floors := FloorShares(totalCost, values, Sum(values));
      0 <= Round((totalCost - Sum(floors)) * 100.0) < |values|
  {
    var values := ValuesOrZero(marketValues);
    var floors := FloorShares(totalCost, values, Sum(values));
    MarketLeftover(totalCost, values);
    SumCents(floors);
    CentsOf(totalCost);
    CentsOf(Sum(floors));
    var y := (totalCost - Sum(floors)) * 100.0;
    assert y == (Cents(totalCost) - Cents(Sum(floors))) as real;
    RoundOfInt(Cents(totalCost) - Cents(Sum(floors)));
  }

  /** `splitCostByMarketValue`: floors of the proportional shares, then the leftover cents to the first items. */
  method SplitCostByMarketValue(totalCost: real, marketValues: seq<Option<real>>) returns (costs: seq<real>)
    ensures costs == MarketSplit(totalCost, marketValues)
  {
    var values := ValuesOrZero(marketValues);
    var totalValue := Sum(values);
    if totalValue == 0.0 {
      costs := SplitCostEqual(totalCost, |values|);
      return;
    }
    var n := |values|;
    var a := new real[n](i requires 0 <= i < n => FloorCents(Share(values[i], totalValue, totalCost)));
    ghost var floors := FloorShares(totalCost, values, totalValue);
    assert a[..] == floors;
    var allocatedSum := Sum(a[..]);
    var remainder := Round((totalCost - allocatedSum) * 100.0);
    MarketLeftover(totalCost, values);
    var i := 0;
    while i < remainder
      invariant 0 <= i <= remainder <= n
      invariant forall k :: 0 <= k < n ==> a[k] == (if k < i then floors[k] + 0.01 else floors[k])
    {
      AddCent(a[i]);
      a[i] := RoundCents(a[i] + 0.01);
      i := i + 1;
    }
    costs := a[..];
  }
}
