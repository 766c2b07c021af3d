/**
 * The deterministic part of the prediction endpoint: validate the request,
 * run the calculator on the accepted query and attach the recommendation
 * for the rounded market price.
 */
module Prediction {
  import opened Wrappers
  import opened Text
  import opened Catalog
  import opened Rounding
  import opened Pricing
  import opened Advice
  import opened Validation

  /** The answer to an accepted request. */
  datatype Report = Report(productData: Query, prediction: Estimate, recommendation: string)

  /** A successful answer, or a refusal with its status code and error text. */
  datatype Response = Success(report: Report) | Failure(status: nat, error: string)

  /**
   * The band for an accepted query, judged on the rounded market price: for
   * a positive price, Excellent above 70% of the original price, Good above
   * 50%, Fair above 30% and Poor otherwise.
   */
  function Advise(q: Query): (r: Recommendation)
    requires q.originalPrice != 0.0
    ensures var price := ReportedPrice(q); q.originalPrice > 0.0 ==>
      && (r == Excellent <==> price > 0.7 * q.originalPrice)
      && (r == Good <==> 0.5 * q.originalPrice < price <= 0.7 * q.originalPrice)
      && (r == Fair <==> 0.3 * q.originalPrice < price <= 0.5 * q.originalPrice)
      && (r == Poor <==> price <= 0.3 * q.originalPrice)
  {
    RecommendByPriceShare(ReportedPrice(q), q.originalPrice);
    Recommend(ReportedPrice(q), q.originalPrice)
  }

  /** The rounded market price reported for an accepted query. */
  function ReportedPrice(q: Query): real
    requires q.originalPrice != 0.0
  {
    CalculateMarketPrice(q.productName, q.condition, q.usageMonths, q.warranty, q.originalPrice).estimatedMarketPrice
  }

  /**
   * The endpoint: a refused request answers 400 with the first failing
   * check's text; an accepted one answers the query, its rounded estimate
   * and the recommendation text for the rounded market price.
   */
  function Predict(p: Payload): (resp: Response)
    ensures resp.Failure? <==> Validate(p).Err?
    ensures resp.Failure? ==> resp.status == 400 && resp.error == Message(Validate(p).error)
    ensures resp.Success? ==>
      && Validate(p) == Ok(resp.report.productData)
      && resp.report.prediction == CalculateMarketPrice(
           resp.report.productData.productName, resp.report.productData.condition,
           resp.report.productData.usageMonths, resp.report.productData.warranty,
           resp.report.productData.originalPrice)
      && resp.report.recommendation
         == Label(Recommend(resp.report.prediction.estimatedMarketPrice, resp.report.productData.originalPrice))
  {
    match Validate(p)
    case Err(e) => Failure(400, Message(e))
    case Ok(q) =>
      var estimate := CalculateMarketPrice(q.productName, q.condition, q.usageMonths, q.warranty, q.originalPrice);
      Success(Report(q, estimate, Label(Advise(q))))
  }

  /**
   * An accepted request is answered with a market price in cents, no lower
   * than the rounded 10% floor, a loss of at most 90%, the comparison figures
   * in order and a monthly rate between 0.83% and 1.67%.
   */
  lemma SuccessfulReportBounds(p: Payload)
    requires Predict(p).Success?
    ensures
      var q := Predict(p).report.productData;
      var e := Predict(p).report.prediction;
      && q.originalPrice > 0.0
      && IsCents(e.estimatedMarketPrice)
      && e.estimatedMarketPrice >= Round2(0.1 * q.originalPrice)
      && 0.0 <= e.depreciation.percentageLoss <= 90.0
      && e.marketComparison.wholesale <= e.marketComparison.online
         <= e.estimatedMarketPrice <= e.marketComparison.retail
      && 0.83 <= e.depreciation.monthlyDepreciation <= 1.67
  {
    var q := Validate(p).value;
    assert Predict(p).report.productData == q;
    assert Predict(p).report.prediction
        == CalculateMarketPrice(q.productName, q.condition, q.usageMonths, q.warranty, q.originalPrice);
  }

  /** More months of use never earn a better recommendation. */
  lemma MoreMonthsNoBetterAdvice(q: Query, n: nat)
    requires q.originalPrice > 0.0 && q.usageMonths <= n
    ensures Rank(Advise(q.(usageMonths := n))) <= Rank(Advise(q))
  {
    ReportedPriceAntitoneInMonths(q.productName, q.condition, q.usageMonths, n, q.warranty, q.originalPrice);
    RecommendMonotone(
      CalculateMarketPrice(q.productName, q.condition, n, q.warranty, q.originalPrice).estimatedMarketPrice,
      CalculateMarketPrice(q.productName, q.condition, q.usageMonths, q.warranty, q.originalPrice).estimatedMarketPrice,
      q.originalPrice);
  }

  /** Answering "Yes" for the warranty never earns a worse recommendation. */
  lemma WarrantyNoWorseAdvice(q: Query)
    requires q.originalPrice > 0.0
    ensures Rank(Advise(q)) <= Rank(Advise(q.(warranty := "Yes")))
  {
    WarrantyNeverLowers(q.productName, q.condition, q.usageMonths, q.warranty, q.originalPrice);
    Round2Monotone(
      MarketPrice(q.productName, q.condition, q.usageMonths, q.warranty, q.originalPrice),
      MarketPrice(q.productName, q.condition, q.usageMonths, "Yes", q.originalPrice));
    RecommendMonotone(
      CalculateMarketPrice(q.productName, q.condition, q.usageMonths, q.warranty, q.originalPrice).estimatedMarketPrice,
      CalculateMarketPrice(q.productName, q.condition, q.usageMonths, "Yes", q.originalPrice).estimatedMarketPrice,
      q.originalPrice);
  }

  /** The example product name has no surrounding whitespace. */
  lemma ExampleStripped()
    ensures Strip("iPhone 13") == "iPhone 13"
  {
    StripLeftKeeps("iPhone 13");
    StripRightKeeps("iPhone 13");
  }

  /** The example product name is priced as an iPhone: 15% a year, 1.25% a month. */
  lemma ExampleRate()
    ensures MonthlyRate("iPhone 13") == 0.0125
  {
    var s := Lower("iPhone 13");
    assert s == "iphone 13";
    assert s[0..6] == "iphone";
    assert OccursAt("iphone", s, 0);
    assert IsFirstMatch(ProductDatabase, s, 0);
  }

  /** The example's condition is in the table with multiplier 0.70, and its warranty earns the bonus. */
  lemma ExampleFactors()
    ensures "Good" in ConditionMultipliers
    ensures ConditionMultiplier("Good") == 0.70
    ensures WarrantyBonus("Yes") == 1.05
  {
  }

  /** Twelve months at 1.25% a month keep about 86% of the value. */
  lemma ExampleDecay()
    ensures DecayFactor(0.0125, 12) == 0.859894659249026930504493066109716892242431640625
  {
    assert 1.0 - 0.0125 == 0.9875;
  }

  /** The formula on the example's factors. */
  lemma ExampleFormula()
    ensures PriceFormula(800.0, 0.70, 0.0125, 12, 1.05) == 505.6180596384278351366419228725135326385498046875
  {
    ExampleDecay();
    assert DecayedPrice(800.0, 0.70, 0.859894659249026930504493066109716892242431640625, 1.05)
        == 505.6180596384278351366419228725135326385498046875;
  }

  /** The example's exact market price: 800 x 0.70 x 0.9875^12 x 1.05. */
  lemma ExampleMarketPrice()
    ensures MarketPrice("iPhone 13", "Good", 12, "Yes", 800.0)
         == 505.6180596384278351366419228725135326385498046875
  {
    ExampleRate();
    ExampleFactors();
    ExampleFormula();
  }

  /** The example's figures, each rounded half to even at the cent. */
  lemma ExampleRounding()
    ensures var x := 505.6180596384278351366419228725135326385498046875;
      && Round2(x) == 505.62
      && Round2(x * 0.95) == 480.34
      && Round2(x * 1.05) == 530.90
      && Round2(x * 0.80) == 404.49
      && Round2(800.0 - x) == 294.38
      && Round2((800.0 - x) / 800.0 * 100.0) == 36.80
      && Round2(0.0125 * 100.0) == 1.25
  {
  }

  /** The calculator's answer for the example request. */
  lemma ExampleEstimate()
    ensures CalculateMarketPrice("iPhone 13", "Good", 12, "Yes", 800.0)
         == Estimate(505.62, MarketComparison(480.34, 530.90, 404.49), Depreciation(294.38, 36.80, 1.25))
  {
    ExampleMarketPrice();
    ExampleRate();
    ExampleRounding();
  }

  /** The example request passes every check. */
  lemma ExampleAccepted()
    ensures Validate(Payload(Some("iPhone 13"), Some("Good"), Some(12), Some("Yes"), Some(800.0)))
         == Ok(Query("iPhone 13", "Good", 12, "Yes", 800.0))
  {
    ExampleStripped();
    ExampleFactors();
  }

  /**
   * The example request: an iPhone 13 in Good condition, used for twelve
   * months, with warranty, bought for 800. It keeps 63.2% of its price.
   */
  lemma ExamplePrediction()
    ensures Predict(Payload(Some("iPhone 13"), Some("Good"), Some(12), Some("Yes"), Some(800.0)))
         == Success(Report(
              Query("iPhone 13", "Good", 12, "Yes", 800.0),
              Estimate(505.62, MarketComparison(480.34, 530.90, 404.49), Depreciation(294.38, 36.80, 1.25)),
              "Good - Reasonable resale value"))
  {
    ExampleAccepted();
    ExampleEstimate();
    assert Recommend(505.62, 800.0) == Good;
  }

  /** A request missing any of the five fields is refused as incomplete, whatever the other fields hold. */
  lemma MissingFieldsRefused(p: Payload)
    requires !HasAllFields(p)
    ensures Predict(p) == Failure(400, "Missing required fields")
  {
  }

  /**
   * A complete request whose price is not positive is refused for the price,
   * whatever its months and condition: the price is checked first.
   */
  lemma PriceCheckedBeforeMonths(p: Payload)
    requires HasAllFields(p) && p.originalPrice.value <= 0.0
    ensures Predict(p) == Failure(400, "Original price must be greater than 0")
  {
  }

  /**
   * A complete request with a positive price and months that are not
   * negative, but a condition grade outside the table, is refused.
   */
  lemma UnknownConditionRefused(p: Payload)
    requires HasAllFields(p) && p.originalPrice.value > 0.0 && p.usageMonths.value >= 0
    requires p.condition.value !in ConditionMultipliers
    ensures Predict(p) == Failure(400, "Invalid condition")
  {
  }

  /** The request of the example with the condition left out is refused as incomplete. */
  lemma ExampleMissingCondition()
    ensures Predict(Payload(Some("iPhone 13"), None, Some(12), Some("Yes"), Some(800.0)))
         == Failure(400, "Missing required fields")
  {
    MissingFieldsRefused(Payload(Some("iPhone 13"), None, Some(12), Some("Yes"), Some(800.0)));
  }
}
