/**
 * The selling recommendation: a band chosen from the share of the original
 * price that the market price retains.
 */
module Advice {

  /** The four recommendation bands, best first. */
  datatype Recommendation = Excellent | Good | Fair | Poor

  /** The name of each band. */
  function BandName(r: Recommendation): string
  {
    match r
    case Excellent => "Excellent"
    case Good => "Good"
    case Fair => "Fair"
    case Poor => "Poor"
  }

  /** The text the service reports for each band: the band's name, a dash and a short reason. */
  function Label(r: Recommendation): (s: string)
    ensures BandName(r) + " - " < s
  {
    match r
    case Excellent => "Excellent - Strong market demand"
    case Good => "Good - Reasonable resale value"
    case Fair => "Fair - Moderate depreciation"
    case Poor => "Poor - High depreciation rate"
  }

  /** Different bands are reported with different texts. */
  lemma LabelsDistinct(r1: Recommendation, r2: Recommendation)
    ensures Label(r1) == Label(r2) ==> r1 == r2
  {
    if r1 != r2 {
      assert Label(r1)[0] != Label(r2)[0];
    }
  }

  /** How good a band is: 3 for Excellent down to 0 for Poor. */
  function Rank(r: Recommendation): nat
  {
    match r
    case Excellent => 3
    case Good => 2
    case Fair => 1
    case Poor => 0
  }

  /** The market price as a percentage of the original price: that percentage of the original is the market price. */
  function RetainedValue(marketPrice: real, originalPrice: real): (percent: real)
    requires originalPrice != 0.0
    ensures percent / 100.0 * originalPrice == marketPrice
  {
    marketPrice / originalPrice * 100.0
  }

  /**
   * The band for a retained value: above 70% is Excellent, above 50% Good,
   * above 30% Fair, and anything else Poor.
   */
  function Recommend(marketPrice: real, originalPrice: real): (r: Recommendation)
    requires originalPrice != 0.0
    ensures r == Excellent <==> RetainedValue(marketPrice, originalPrice) > 70.0
    ensures r == Good <==> 50.0 < RetainedValue(marketPrice, originalPrice) <= 70.0
    ensures r == Fair <==> 30.0 < RetainedValue(marketPrice, originalPrice) <= 50.0
    ensures r == Poor <==> RetainedValue(marketPrice, originalPrice) <= 30.0
  {
    var retained := RetainedValue(marketPrice, originalPrice);
    if retained > 70.0 then Excellent
    else if retained > 50.0 then Good
    else if retained > 30.0 then Fair
    else Poor
  }

  /** For a positive original price, the retained value compares like the market price. */
  lemma RetainedAbove(marketPrice: real, originalPrice: real, percent: real)
    requires originalPrice > 0.0
    ensures RetainedValue(marketPrice, originalPrice) > percent <==> marketPrice > percent / 100.0 * originalPrice
  {
    var share := marketPrice / originalPrice;
    assert share * originalPrice == marketPrice;
    if share * 100.0 > percent {
      assert share > percent / 100.0;
      assert share * originalPrice > percent / 100.0 * originalPrice;
    } else {
      assert share <= percent / 100.0;
      assert share * originalPrice <= percent / 100.0 * originalPrice;
    }
  }

  /**
   * For a positive original price the bands are price thresholds: Excellent
   * above 70% of the original, Good above 50%, Fair above 30%, Poor otherwise.
   */
  lemma RecommendByPriceShare(marketPrice: real, originalPrice: real)
    ensures originalPrice > 0.0 ==>
      (Recommend(marketPrice, originalPrice) == Excellent <==> marketPrice > 0.7 * originalPrice)
    ensures originalPrice > 0.0 ==>
      (Recommend(marketPrice, originalPrice) == Good <==> 0.5 * originalPrice < marketPrice <= 0.7 * originalPrice)
    ensures originalPrice > 0.0 ==>
      (Recommend(marketPrice, originalPrice) == Fair <==> 0.3 * originalPrice < marketPrice <= 0.5 * originalPrice)
    ensures originalPrice > 0.0 ==>
      (Recommend(marketPrice, originalPrice) == Poor <==> marketPrice <= 0.3 * originalPrice)
  {
    if originalPrice > 0.0 {
      RetainedAbove(marketPrice, originalPrice, 70.0);
      RetainedAbove(marketPrice, originalPrice, 50.0);
      RetainedAbove(marketPrice, originalPrice, 30.0);
    }
  }

  /** A higher market price never earns a worse recommendation. */
  lemma RecommendMonotone(m1: real, m2: real, originalPrice: real)
    requires originalPrice > 0.0 && m1 <= m2
    ensures Rank(Recommend(m1, originalPrice)) <= Rank(Recommend(m2, originalPrice))
  {
    RecommendByPriceShare(m1, originalPrice);
    RecommendByPriceShare(m2, originalPrice);
  }
}
