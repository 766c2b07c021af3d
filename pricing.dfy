/**
 * The price calculator: condition weighting, compound monthly decay, the
 * warranty bonus, the 10% price floor and the figures derived from the
 * resulting market price. Amounts are exact reals.
 */
module Pricing {
  import opened Catalog
  import opened Rounding

  /** Multiplying by a non-negative factor keeps an inequality. */
  lemma MulMono(a: real, b: real, c: real)
    requires 0.0 <= a && b <= c
    ensures a * b <= a * c && b * a <= c * a
  {
  }

  /** Multiplying by a positive factor keeps a strict inequality. */
  lemma MulStrict(a: real, b: real, c: real)
    requires 0.0 < a && b < c
    ensures a * b < a * c
  {
  }

  /** The product of two positive numbers is positive. */
  lemma MulPos(a: real, b: real)
    requires 0.0 < a && 0.0 < b
    ensures 0.0 < a * b
  {
  }

  /** A factor of at most 1 does not enlarge a non-negative amount. */
  lemma MulLeSelf(p: real, x: real)
    requires 0.0 <= p && x <= 1.0
    ensures x * p <= p
  {
  }

  /**
   * A positive price times a condition multiplier of at most 0.95, a decay
   * factor of at most 1 and a bonus of at most 1.05 keeps at most 99.75% of itself.
   */
  lemma ProductBound(o: real, m: real, p: real, b: real)
    ensures o > 0.0 && 0.0 < m <= 0.95 && 0.0 < p <= 1.0 && 0.0 < b <= 1.05 ==>
      0.0 < o * m * p * b <= 0.9975 * o
  {
    if o > 0.0 && 0.0 < m <= 0.95 && 0.0 < p <= 1.0 && 0.0 < b <= 1.05 {
      MulPos(o, m);
      MulPos(o * m, p);
      MulPos(o * m * p, b);
      MulMono(o * m * p, b, 1.05);
      MulMono(o * m, p, 1.0);
      assert o * m * p <= o * m;
      MulMono(o, m, 0.95);
      assert o * m * p <= o * 0.95;
      assert o * m * p * b <= o * m * p * 1.05;
    }
  }

  /** The condition price, decayed and then given the warranty bonus, before the floor. */
  function DecayedPrice(originalPrice: real, multiplier: real, decay: real, bonus: real): real
  {
    originalPrice * multiplier * decay * bonus
  }

  /** With every factor in range the decayed price is positive and at most 99.75% of the original price. */
  lemma FactorsBound(o: real, m: real, p: real, b: real)
    ensures o > 0.0 && 0.0 < m <= 0.95 && 0.0 < p <= 1.0 && 0.0 < b <= 1.05 ==>
      0.0 < DecayedPrice(o, m, p, b) <= 0.9975 * o
  {
    ProductBound(o, m, p, b);
  }

  /** A smaller decay factor gives a smaller decayed price. */
  lemma DecayedPriceMonoInDecay(o: real, m: real, p1: real, p2: real, b: real)
    requires 0.0 < o && 0.0 < m && 0.0 < b && p1 <= p2
    ensures DecayedPrice(o, m, p1, b) <= DecayedPrice(o, m, p2, b)
  {
    MulPos(o, m);
    MulMono(o * m, p1, p2);
    MulMono(b, o * m * p1, o * m * p2);
  }

  /** Positive leading factors keep the order of the last factor. */
  lemma ProductMonoInLast(o: real, m: real, p: real, b1: real, b2: real)
    requires 0.0 < o && 0.0 < m && 0.0 < p && b1 <= b2
    ensures o * m * p * b1 <= o * m * p * b2
    ensures b1 < b2 ==> o * m * p * b1 < o * m * p * b2
  {
    MulPos(o, m);
    MulPos(o * m, p);
    MulMono(o * m * p, b1, b2);
    if b1 < b2 {
      MulStrict(o * m * p, b1, b2);
    }
  }

  /** A larger bonus gives a larger decayed price, strictly so when it is strictly larger. */
  lemma DecayedPriceMonoInBonus(o: real, m: real, p: real, b1: real, b2: real)
    requires 0.0 < o && 0.0 < m && 0.0 < p && b1 <= b2
    ensures DecayedPrice(o, m, p, b1) <= DecayedPrice(o, m, p, b2)
    ensures b1 < b2 ==> DecayedPrice(o, m, p, b1) < DecayedPrice(o, m, p, b2)
  {
    ProductMonoInLast(o, m, p, b1, b2);
  }

  /** `x` raised to the power `n`. */
  function Pow(x: real, n: nat): (r: real)
    ensures 0.0 < x ==> 0.0 < r
    ensures 0.0 <= x <= 1.0 ==> 0.0 <= r <= 1.0
  {
    if n == 0 then
      1.0
    else
      var p := Pow(x, n - 1);
      if 0.0 <= x <= 1.0 then
        MulLeSelf(p, x);
        x * p
      else
        x * p
  }

  /** One more factor in (0, 1] does not raise the power. */
  lemma PowStepDown(x: real, n: nat)
    requires 0.0 < x <= 1.0 && n > 0
    ensures Pow(x, n) <= Pow(x, n - 1)
  {
    MulLeSelf(Pow(x, n - 1), x);
  }

  /** A factor in (0, 1] shrinks as it is raised to higher powers. */
  lemma {:induction false} PowAntitone(x: real, m: nat, n: nat)
    requires 0.0 < x <= 1.0 && m <= n
    ensures Pow(x, n) <= Pow(x, m)
  {
    if m < n {
      PowAntitone(x, m, n - 1);
      PowStepDown(x, n);
    }
  }

  /** The compound decay over `usageMonths` months at a monthly `rate`. */
  function DecayFactor(rate: real, usageMonths: nat): (f: real)
    ensures 0.0 < rate < 1.0 ==> 0.0 < f <= 1.0
    ensures usageMonths == 0 ==> f == 1.0
  {
    Pow(1.0 - rate, usageMonths)
  }

  /** Decay over more months leaves a smaller factor. */
  lemma DecayAntitone(rate: real, m: nat, n: nat)
    requires 0.0 < rate < 1.0 && m <= n
    ensures DecayFactor(rate, n) <= DecayFactor(rate, m)
  {
    PowAntitone(1.0 - rate, m, n);
  }

  /** The share of value lost per month: the yearly depreciation over twelve. */
  function MonthlyRate(productName: string): (rate: real)
    ensures 0.10 / 12.0 <= rate <= 0.20 / 12.0
    ensures 0.0 < 1.0 - rate < 1.0
  {
    ProductDepreciation(productName) / 12.0
  }

  /** A 5% bonus, given only for the exact answer "Yes". */
  function WarrantyBonus(warranty: string): (bonus: real)
    ensures bonus == 1.05 <==> warranty == "Yes"
    ensures bonus == 1.0 <==> warranty != "Yes"
  {
    if warranty == "Yes" then 1.05 else 1.0
  }

  /** The larger of two amounts. */
  function Max(a: real, b: real): (m: real)
    ensures a <= m && b <= m
    ensures m == a || m == b
  {
    if a >= b then a else b
  }

  /**
   * The market-price formula on its factors: the condition price, decayed
   * monthly at `rate` for `usageMonths` months, times the warranty bonus,
   * and never below 10% of the original price.
   */
  function PriceFormula(originalPrice: real, multiplier: real, rate: real, usageMonths: nat, bonus: real): (price: real)
    ensures price >= 0.1 * originalPrice
    ensures 0.0 < originalPrice && 0.0 < multiplier <= 0.95 && 0.0 < rate < 1.0 && 0.0 < bonus <= 1.05 ==>
      price < originalPrice
  {
    FactorsBound(originalPrice, multiplier, DecayFactor(rate, usageMonths), bonus);
    Max(DecayedPrice(originalPrice, multiplier, DecayFactor(rate, usageMonths), bonus), originalPrice * 0.1)
  }

  /** Under the formula, zero months leave the condition price times the bonus, floored. */
  lemma FormulaAtZeroMonths(originalPrice: real, multiplier: real, rate: real, bonus: real)
    ensures PriceFormula(originalPrice, multiplier, rate, 0, bonus) == Max(originalPrice * multiplier * bonus, originalPrice * 0.1)
  {
    assert DecayFactor(rate, 0) == 1.0;
    assert DecayedPrice(originalPrice, multiplier, 1.0, bonus) == originalPrice * multiplier * bonus;
  }

  /** Under the formula, more months never give a higher price. */
  lemma FormulaAntitoneInMonths(originalPrice: real, multiplier: real, rate: real, m: nat, n: nat, bonus: real)
    requires 0.0 < originalPrice && 0.0 < multiplier && 0.0 < rate < 1.0 && 0.0 < bonus && m <= n
    ensures PriceFormula(originalPrice, multiplier, rate, n, bonus) <= PriceFormula(originalPrice, multiplier, rate, m, bonus)
  {
    DecayAntitone(rate, m, n);
    DecayedPriceMonoInDecay(originalPrice, multiplier, DecayFactor(rate, n), DecayFactor(rate, m), bonus);
  }

  /**
   * Under the formula, a larger bonus never gives a lower price, and gives a
   * strictly higher one when the larger-bonus price is above the floor.
   */
  lemma FormulaMonotoneInBonus(originalPrice: real, multiplier: real, rate: real, usageMonths: nat, b1: real, b2: real)
    requires 0.0 < originalPrice && 0.0 < multiplier && 0.0 < rate < 1.0 && b1 <= b2
    ensures PriceFormula(originalPrice, multiplier, rate, usageMonths, b1) <= PriceFormula(originalPrice, multiplier, rate, usageMonths, b2)
    ensures b1 < b2 && PriceFormula(originalPrice, multiplier, rate, usageMonths, b2) > 0.1 * originalPrice ==>
      PriceFormula(originalPrice, multiplier, rate, usageMonths, b1) < PriceFormula(originalPrice, multiplier, rate, usageMonths, b2)
  {
    DecayedPriceMonoInBonus(originalPrice, multiplier, DecayFactor(rate, usageMonths), b1, b2);
  }

  /** The unrounded market price of a product. */
  function MarketPrice(productName: string, condition: string, usageMonths: nat, warranty: string, originalPrice: real): (price: real)
    ensures price >= 0.1 * originalPrice
    ensures originalPrice > 0.0 ==> price < originalPrice
  {
    PriceFormula(originalPrice, ConditionMultiplier(condition), MonthlyRate(productName), usageMonths, WarrantyBonus(warranty))
  }

  datatype MarketComparison = MarketComparison(online: real, retail: real, wholesale: real)

  datatype Depreciation = Depreciation(priceLoss: real, percentageLoss: real, monthlyDepreciation: real)

  /** The calculator's answer: the market price and the figures derived from it. */
  datatype Estimate = Estimate(
    estimatedMarketPrice: real,
    marketComparison: MarketComparison,
    depreciation: Depreciation)

  /** A price between 10% and 100% of the original loses between 0% and 90% of it. */
  lemma LossShareBounds(originalPrice: real, marketPrice: real)
    ensures 0.0 < originalPrice && 0.1 * originalPrice <= marketPrice < originalPrice ==>
      0.0 < (originalPrice - marketPrice) / originalPrice * 100.0 <= 90.0
  {
    if 0.0 < originalPrice && 0.1 * originalPrice <= marketPrice < originalPrice {
      var share := (originalPrice - marketPrice) / originalPrice;
      assert share * originalPrice == originalPrice - marketPrice;
      assert 0.0 < share <= 0.9 by {
        if share <= 0.0 {
          MulMono(originalPrice, share, 0.0);
        }
        if share > 0.9 {
          MulMono(originalPrice, 0.9, share);
        }
      }
    }
  }

  /** Every figure of the estimate, before rounding. */
  function ExactEstimate(productName: string, condition: string, usageMonths: nat, warranty: string, originalPrice: real): (e: Estimate)
    requires originalPrice != 0.0
    ensures e.depreciation.priceLoss + e.estimatedMarketPrice == originalPrice
    ensures originalPrice > 0.0 ==> 0.0 < e.depreciation.percentageLoss <= 90.0
    ensures originalPrice > 0.0 ==>
      e.marketComparison.wholesale <= e.marketComparison.online
      <= e.estimatedMarketPrice <= e.marketComparison.retail
    ensures 10.0 / 12.0 <= e.depreciation.monthlyDepreciation <= 20.0 / 12.0
  {
    var rate := MonthlyRate(productName);
    var marketPrice := MarketPrice(productName, condition, usageMonths, warranty, originalPrice);
    var priceLoss := originalPrice - marketPrice;
    var percentageLoss := (priceLoss / originalPrice) * 100.0;
    LossShareBounds(originalPrice, marketPrice);
    Estimate(
      marketPrice,
      MarketComparison(marketPrice * 0.95, marketPrice * 1.05, marketPrice * 0.80),
      Depreciation(priceLoss, percentageLoss, rate * 100.0))
  }

  /** Every figure of the estimate is a whole number of cents. */
  predicate InCents(e: Estimate)
  {
    && IsCents(e.estimatedMarketPrice)
    && IsCents(e.marketComparison.online)
    && IsCents(e.marketComparison.retail)
    && IsCents(e.marketComparison.wholesale)
    && IsCents(e.depreciation.priceLoss)
    && IsCents(e.depreciation.percentageLoss)
    && IsCents(e.depreciation.monthlyDepreciation)
  }

  /**
   * Every figure of an estimate rounded to two decimals: the result is in
   * whole cents, and an estimate already in whole cents is left as it is.
   */
  function Rounded(e: Estimate): (r: Estimate)
    ensures InCents(r)
    ensures InCents(e) ==> r == e
  {
    Estimate(
      Round2(e.estimatedMarketPrice),
      MarketComparison(
        Round2(e.marketComparison.online),
        Round2(e.marketComparison.retail),
        Round2(e.marketComparison.wholesale)),
      Depreciation(
        Round2(e.depreciation.priceLoss),
        Round2(e.depreciation.percentageLoss),
        Round2(e.depreciation.monthlyDepreciation)))
  }

  /** Rounding each figure keeps the floor, the loss bounds and the order of the comparison figures. */
  lemma RoundingKeepsBounds(e: Estimate, floor: real)
    ensures floor <= e.estimatedMarketPrice ==> Rounded(e).estimatedMarketPrice >= Round2(floor)
    ensures 0.0 <= e.depreciation.percentageLoss <= 90.0 ==>
      0.0 <= Rounded(e).depreciation.percentageLoss <= 90.0
    ensures (e.marketComparison.wholesale <= e.marketComparison.online
             <= e.estimatedMarketPrice <= e.marketComparison.retail) ==>
      Rounded(e).marketComparison.wholesale <= Rounded(e).marketComparison.online
      <= Rounded(e).estimatedMarketPrice <= Rounded(e).marketComparison.retail
  {
    if floor <= e.estimatedMarketPrice {
      Round2Monotone(floor, e.estimatedMarketPrice);
    }
    if 0.0 <= e.depreciation.percentageLoss <= 90.0 {
      Round2Monotone(0.0, e.depreciation.percentageLoss);
      Round2Monotone(e.depreciation.percentageLoss, 90.0);
      Round2OfCents(0.0);
      Round2OfCents(90.0);
    }
    if e.marketComparison.wholesale <= e.marketComparison.online
        <= e.estimatedMarketPrice <= e.marketComparison.retail {
      Round2Monotone(e.marketComparison.wholesale, e.marketComparison.online);
      Round2Monotone(e.marketComparison.online, e.estimatedMarketPrice);
      Round2Monotone(e.estimatedMarketPrice, e.marketComparison.retail);
    }
  }

  /** A monthly rate between 10/12% and 20/12% reads as 0.83% to 1.67% once rounded. */
  lemma MonthlyFigureRounded(x: real)
    requires 10.0 / 12.0 <= x <= 20.0 / 12.0
    ensures 0.83 <= Round2(x) <= 1.67
  {
    Round2Monotone(10.0 / 12.0, x);
    Round2Monotone(x, 20.0 / 12.0);
    assert Round2(10.0 / 12.0) == 0.83;
    assert Round2(20.0 / 12.0) == 1.67;
  }

  /** The calculator as reported: the exact estimate, rounded to cents. */
  function CalculateMarketPrice(productName: string, condition: string, usageMonths: nat, warranty: string, originalPrice: real): (e: Estimate)
    requires originalPrice != 0.0
    ensures IsCents(e.estimatedMarketPrice)
    ensures originalPrice > 0.0 ==> e.estimatedMarketPrice >= Round2(0.1 * originalPrice)
    ensures originalPrice > 0.0 ==> 0.0 <= e.depreciation.percentageLoss <= 90.0
    ensures originalPrice > 0.0 ==>
      e.marketComparison.wholesale <= e.marketComparison.online
      <= e.estimatedMarketPrice <= e.marketComparison.retail
    ensures 0.83 <= e.depreciation.monthlyDepreciation <= 1.67
  {
    var x := ExactEstimate(productName, condition, usageMonths, warranty, originalPrice);
    MonthlyFigureRounded(x.depreciation.monthlyDepreciation);
    RoundingKeepsBounds(x, 0.1 * originalPrice);
    Rounded(x)
  }

  /** With no months of use there is no decay. */
  lemma NoDecayAtZeroMonths(productName: string, condition: string, warranty: string, originalPrice: real)
    ensures MarketPrice(productName, condition, 0, warranty, originalPrice)
         == Max(originalPrice * ConditionMultiplier(condition) * WarrantyBonus(warranty), originalPrice * 0.1)
  {
    var m, rate, bonus := ConditionMultiplier(condition), MonthlyRate(productName), WarrantyBonus(warranty);
    assert MarketPrice(productName, condition, 0, warranty, originalPrice) == PriceFormula(originalPrice, m, rate, 0, bonus);
    FormulaAtZeroMonths(originalPrice, m, rate, bonus);
  }

  /** More months of use never raise the market price. */
  lemma MarketPriceAntitoneInMonths(productName: string, condition: string, m: nat, n: nat, warranty: string, originalPrice: real)
    requires originalPrice > 0.0 && m <= n
    ensures MarketPrice(productName, condition, n, warranty, originalPrice)
         <= MarketPrice(productName, condition, m, warranty, originalPrice)
  {
    FormulaAntitoneInMonths(originalPrice, ConditionMultiplier(condition), MonthlyRate(productName), m, n, WarrantyBonus(warranty));
  }

  /** More months of use never raise the reported (rounded) market price. */
  lemma ReportedPriceAntitoneInMonths(productName: string, condition: string, m: nat, n: nat, warranty: string, originalPrice: real)
    requires originalPrice > 0.0 && m <= n
    ensures CalculateMarketPrice(productName, condition, n, warranty, originalPrice).estimatedMarketPrice
         <= CalculateMarketPrice(productName, condition, m, warranty, originalPrice).estimatedMarketPrice
  {
    MarketPriceAntitoneInMonths(productName, condition, m, n, warranty, originalPrice);
    Round2Monotone(
      MarketPrice(productName, condition, n, warranty, originalPrice),
      MarketPrice(productName, condition, m, warranty, originalPrice));
  }

  /**
   * A warranty of "Yes" never lowers the market price, and raises it
   * whenever the warranted price is above the floor.
   */
  lemma WarrantyNeverLowers(productName: string, condition: string, usageMonths: nat, warranty: string, originalPrice: real)
    requires originalPrice > 0.0
    ensures MarketPrice(productName, condition, usageMonths, "Yes", originalPrice)
         >= MarketPrice(productName, condition, usageMonths, warranty, originalPrice)
    ensures warranty != "Yes" && MarketPrice(productName, condition, usageMonths, "Yes", originalPrice) > 0.1 * originalPrice ==>
      MarketPrice(productName, condition, usageMonths, "Yes", originalPrice)
      > MarketPrice(productName, condition, usageMonths, warranty, originalPrice)
  {
    FormulaMonotoneInBonus(originalPrice, ConditionMultiplier(condition), MonthlyRate(productName), usageMonths,
      WarrantyBonus(warranty), WarrantyBonus("Yes"));
  }
}
