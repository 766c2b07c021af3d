# Second-hand price estimator: the pricing pipeline in Dafny

The service takes five fields about a used product: name, condition grade, months of use, warranty answer and original price. It answers with an estimated market price, three comparison prices, depreciation figures and a selling recommendation. This project models the deterministic part of that answer, as written in `app.py`. Each step is a pure function, and lemmas state what the pipeline promises.

The pipeline has these steps:

- **Product-type lookup** (`Catalog`). The product name is lower-cased. The ordered product database is then scanned, and the first key that occurs in the name as a substring gives the yearly depreciation. If no key occurs, the default of 15% applies.
- **Price calculator** (`Pricing`):
  1. The original price is multiplied by the condition multiplier.
  2. It is decayed monthly at a twelfth of the yearly depreciation, compounded over the months of use.
  3. It earns a 5% bonus only for the warranty answer `Yes`.
  4. It is never allowed below 10% of the original price.
  5. The loss, the loss percentage, the online, retail and wholesale prices and the monthly rate are derived from it, and every figure is rounded to cents.
- **Recommendation** (`Advice`). One of four bands is chosen on the percentage of the original price that the rounded market price retains. The strict thresholds are 70, 50 and 30.
- **Request checks** (`Validation`). The checks run in this order: all fields present, price above 0, months not negative, condition grade known. The first failing check decides the 400 error text. The product name is stripped of surrounding whitespace.
- **Endpoint** (`Prediction`). This step chains the above: checks, then calculator, then the recommendation for the rounded price.

`Text` models the three string operations involved:

- `str.lower`;
- the substring test `key in text`;
- `str.strip`, with Python's whitespace set.

`Rounding` models `round(x, 2)` as exact round-half-to-even at the cent. `Wrappers` holds `Option` and `Result`.

Amounts are exact reals. `Pow` is a recursive power on reals. `DecayedPrice` names the product of the condition price, the decay factor and the bonus, and the monotonicity and bound lemmas are stated about it.

The worked example is `Prediction.ExamplePrediction`: an iPhone 13 in Good condition, used 12 months, with warranty, bought for 800. It is answered with:

- market price 505.62;
- online 480.34, retail 530.90, wholesale 404.49;
- loss 294.38, that is 36.80%;
- monthly depreciation 1.25%;
- the recommendation "Good - Reasonable resale value", since 63.2% is retained.

The exact market price of the example is 505.618…, which keeps 63.2% of the original price: the Good band. For a positive price the loss percentage lies in (0, 90], because of the 10% floor and because the largest factors, 0.95 × 1.05, multiply to less than 1.

## Model

| member | source | states |
|---|---|---|
| Text.Lower | app.py:75 | lower-casing keeps the length, turns every ASCII capital into its small letter (code point plus 32), leaves no ASCII capital and keeps every other character in place |
| Text.LowerIdempotent | app.py:75 | lower-casing an already lower-cased name changes nothing |
| Text.LowerIgnoresCase | app.py:75 | two texts of the same length that differ only in the ASCII case of their letters lower-case to the same text |
| Text.Contains | app.py:78 | the scan's `key in product_lower` is true exactly when the key occurs at some position of the text |
| Text.StripLeft | app.py:192 | removes exactly the leading whitespace: the result is a suffix, everything removed is whitespace, and the result starts with a non-space or is empty |
| Text.StripRight | app.py:192 | removes exactly the trailing whitespace, symmetrically |
| Text.Strip | app.py:192 | the stripped name is no longer than the name and neither starts nor ends with whitespace; StripWindow shows it is the name with its leading and trailing whitespace cut off |
| Text.StripWindow | app.py:192 | the stripped name is a slice `s[a..b]` of the name, and every character before `a` and from `b` on is whitespace |
| Text.StripIdempotent | app.py:192 | stripping a stripped name changes nothing |
| Text.StripKeepsOccurrence | app.py:192 | a non-empty key without whitespace occurs in the lower-cased stripped name exactly when it occurs in the lower-cased original |
| Catalog.DatabaseKeysDistinct | app.py:21-62 | the product database has eight entries whose keys are pairwise different |
| Catalog.DatabaseWellFormed | app.py:21-62 | every key is a non-empty lower-case word without whitespace, and every yearly depreciation lies between 0.10 and 0.20 |
| Catalog.ConditionGradesOrdered | app.py:65-71 | the grades are exactly New, Like New, Good, Fair and Poor, with multipliers in [0.30, 0.95] that fall strictly from New to Poor; the 0.70 default equals the Good multiplier |
| Catalog.ScanDepreciation | app.py:77-81 | returns the depreciation of the first entry whose key occurs in the text, the default 0.15 when none does, and never a value outside the table and the default |
| Catalog.ProductDepreciation | app.py:73-81 | the yearly depreciation of any name lies between 0.10 and 0.20 |
| Catalog.ConditionMultiplier | app.py:90 | the multiplier lies between 0.30 and 0.95, and an unknown grade gets the default 0.70 |
| Catalog.IphoneDepreciation | app.py:73-81 | the lower-cased "Apple iPhone 13 Pro" has its first match at the first entry, "iphone", and the name gets 0.15 |
| Catalog.MacbookBeforeLaptop | app.py:77-79 | "MacBook laptop" contains two keys; the earlier "macbook" wins, giving 0.12 rather than the 0.15 of "laptop" |
| Catalog.UnknownProductDefault | app.py:81 | every name whose lower-cased form contains no key gets the default 0.15 |
| Catalog.RokuBoxDefault | app.py:73-81 | "Roku Box" contains no key, so it gets the default 0.15 |
| Catalog.ScanSeesOnlyOccurrences | app.py:77-79 | the scan's answer depends only on which keys occur in the text |
| Catalog.LookupIgnoresCase | app.py:73-81 | names that differ only in the ASCII case of their letters get the same yearly depreciation |
| Catalog.StripKeepsDepreciation | app.py:192 | stripping the name before the lookup never changes the depreciation found |
| Rounding.Round2 | app.py:109-118 | the rounded amount is a whole number of cents within half a cent of the exact amount |
| Rounding.Round2Monotone | app.py:109-118 | rounding keeps the order of amounts |
| Rounding.Round2HalfEven | app.py:109-118 | an amount exactly halfway between two cents goes to one of those two neighbours, the one with an even number of cents |
| Rounding.Round2TieExamples | app.py:109-118 | three ties: 0.125 goes to 0.12, 0.135 to 0.14 and -0.125 to -0.12 |
| Pricing.Pow | app.py:93 | a positive base gives a positive power, and a base in [0, 1] gives a power in [0, 1] |
| Pricing.PowAntitone | app.py:93 | a base in (0, 1] raised to more months gives a smaller power |
| Pricing.DecayFactor | app.py:93 | for a monthly rate in (0, 1) the decay factor lies in (0, 1], and it is exactly 1 at zero months |
| Pricing.DecayAntitone | app.py:93 | decaying over more months leaves a smaller factor |
| Pricing.MonthlyRate | app.py:87 | the monthly rate lies between 0.10/12 and 0.20/12, so 1 - rate is strictly between 0 and 1 |
| Pricing.WarrantyBonus | app.py:96 | the bonus is 1.05 exactly for the answer "Yes" and 1.0 for every other answer |
| Pricing.DecayedPrice | app.py:90-99 | the pre-floor price, original × multiplier × decay × bonus; FactorsBound, DecayedPriceMonoInDecay and DecayedPriceMonoInBonus state its bounds and monotonicity |
| Pricing.FactorsBound | app.py:90-99 | a positive price times factors of at most 0.95, 1 and 1.05 is positive and at most 99.75% of the price |
| Pricing.Max | app.py:102 | the result is one of the two amounts and no smaller than either |
| Pricing.DecayedPriceMonoInDecay | app.py:93-99 | a smaller decay factor gives a smaller pre-floor price |
| Pricing.DecayedPriceMonoInBonus | app.py:96-99 | a larger bonus gives a larger pre-floor price, and a strictly larger bonus a strictly larger one |
| Pricing.PriceFormula | app.py:86-102 | the formula never goes below 10% of the original price, and with every factor in range it stays strictly below the original price |
| Pricing.FormulaAtZeroMonths | app.py:93-102 | at zero months the formula is the condition price times the bonus, floored |
| Pricing.FormulaAntitoneInMonths | app.py:93-102 | more months never raise the formula's price |
| Pricing.FormulaMonotoneInBonus | app.py:96-102 | a larger bonus never lowers the price, and raises it strictly when the larger-bonus price is above the floor |
| Pricing.MarketPrice | app.py:83-102 | the unrounded market price is at least 10% of the original price, and below the original price when that is positive |
| Pricing.NoDecayAtZeroMonths | app.py:93-102 | with zero months of use the market price is the condition price times the bonus, floored at 10% |
| Pricing.MarketPriceAntitoneInMonths | app.py:93-102 | more months of use never raise the unrounded market price |
| Pricing.WarrantyNeverLowers | app.py:96-102 | answering "Yes" never lowers the market price, and raises it strictly whenever the warranted price is above the floor |
| Pricing.LossShareBounds | app.py:105-106 | a price between 10% and 100% of a positive original loses more than 0% and at most 90% of it |
| Pricing.ExactEstimate | app.py:105-118 | loss plus market price is the original price; for a positive price the loss percentage lies in (0, 90] and wholesale ≤ online ≤ market ≤ retail; the monthly figure lies between 10/12% and 20/12% |
| Pricing.Rounded | app.py:109-118 | every rounded figure is in whole cents, and an estimate already in whole cents is left unchanged |
| Pricing.RoundingKeepsBounds | app.py:109-118 | rounding every figure keeps the floor, a loss percentage in [0, 90] and the order of the comparison figures |
| Pricing.MonthlyFigureRounded | app.py:118 | the rounded monthly figure lies between 0.83% and 1.67% |
| Pricing.CalculateMarketPrice | app.py:83-120 | the reported price is in whole cents and at least the rounded 10% floor; for a positive price the reported loss percentage lies in [0, 90] and the reported comparison figures stay in order; the monthly figure lies between 0.83% and 1.67% |
| Pricing.ReportedPriceAntitoneInMonths | app.py:93-110 | more months never raise the reported, rounded market price |
| Advice.Label | app.py:126-133 | each recommendation text starts with the band's name followed by " - " |
| Advice.LabelsDistinct | app.py:126-133 | the four recommendation texts are pairwise different |
| Advice.Recommend | app.py:122-133 | Excellent exactly above 70% retained, Good exactly in (50, 70], Fair exactly in (30, 50], Poor exactly at 30% or below |
| Advice.RetainedValue | app.py:124 | the retained percentage of the original price is the market price |
| Advice.RetainedAbove | app.py:124 | for a positive original price, the retained percentage is above a threshold exactly when the market price is above that share of the original |
| Advice.RecommendByPriceShare | app.py:124-133 | for a positive original price the bands are the price thresholds 0.7, 0.5 and 0.3 times the original price |
| Advice.RecommendMonotone | app.py:122-133 | a higher market price never earns a worse band |
| Validation.Message | app.py:189-207 | every refusal has a non-empty error text |
| Validation.MessagesDistinct | app.py:189-207 | different refusals are reported with different texts |
| Validation.Validate | app.py:187-207 | the checks run in the order missing fields, price ≤ 0, months < 0, unknown condition, each error exactly when its check is the first to fail; an accepted query copies the fields, strips the name, has a positive price and a condition in the table |
| Validation.RevalidateAccepted | app.py:187-207 | an accepted query sent back through the checks is accepted again, unchanged |
| Validation.AcceptedConditionHasMultiplier | app.py:206-207 | for an accepted request the calculator never uses the 0.70 default multiplier |
| Prediction.Advise | app.py:219-222 | for a positive price the band of an accepted query is Excellent above 70% of the original price, Good in (50%, 70%], Fair in (30%, 50%] and Poor at 30% or below, judged on the rounded market price |
| Prediction.Predict | app.py:187-222 | a request is refused with status 400 exactly when the checks refuse it, with the text of the first failing check; an accepted one is answered with the calculator's estimate for the accepted query and the text of the band for the rounded price |
| Prediction.SuccessfulReportBounds | app.py:209-222 | an answered request reports a positive original price, a market price in whole cents no lower than the rounded 10% floor, a loss of at most 90%, comparison figures in order and a monthly figure between 0.83% and 1.67% |
| Prediction.MoreMonthsNoBetterAdvice | app.py:219-222 | more months of use never earn a better recommendation |
| Prediction.WarrantyNoWorseAdvice | app.py:219-222 | answering "Yes" for the warranty never earns a worse recommendation |
| Prediction.MissingFieldsRefused | app.py:187-189 | every request missing any of the five fields is answered 400 "Missing required fields" |
| Prediction.PriceCheckedBeforeMonths | app.py:200-204 | every complete request whose price is not positive is answered 400 "Original price must be greater than 0", whatever its months and condition |
| Prediction.UnknownConditionRefused | app.py:200-207 | every complete request with a positive price and months that are not negative, but an unknown condition grade, is answered 400 "Invalid condition" |
| Prediction.ExampleMissingCondition | app.py:187-189 | the example request without its condition is answered 400 "Missing required fields" |
| Prediction.ExampleRate | app.py:73-87 | "iPhone 13" is priced at 15% a year, 1.25% a month |
| Prediction.ExampleDecay | app.py:93 | twelve months at 1.25% keep exactly 0.9875^12 of the value |
| Prediction.ExampleMarketPrice | app.py:83-102 | the example's exact market price is 505.6180596… |
| Prediction.ExampleRounding | app.py:109-118 | the example's figures round to 505.62, 480.34, 530.90, 404.49, 294.38, 36.80 and 1.25 |
| Prediction.ExampleEstimate | app.py:83-120 | the calculator's answer for the example is exactly those rounded figures |
| Prediction.ExampleAccepted | app.py:187-207 | the example request passes every check, and its name is unchanged by stripping |
| Prediction.ExamplePrediction | app.py:187-222 | the example request is answered with those figures and "Good - Reasonable resale value" |

## Left out

- The AI analysis is not modelled: `prepare_analysis_prompt` (app.py:135-163) is string templating, and `get_gemini_analysis` (app.py:165-173) is a call into a remote model.
- Not modelled: the web layer, CORS, `jsonify`, the `success`, `aiInsights` and `timestamp` fields of the answer, and the `/api/products` and `/api/health` endpoints. These are I/O with no pricing logic.
- Environment and configuration loading and the `__main__` block are not modelled, since they are start-up I/O.
- Floating point is left out; amounts are exact reals:
  - `math.pow` and the multiplications are exact, without binary rounding.
  - `round(x, 2)` is applied to the exact amount rather than to the nearest double. Python's result differs when the exact amount is a half cent but its double is not:
    - when the double lies just below the half cent and the even cent is above, as for 2.675: Python gives 2.67, the model 2.68;
    - when the double lies just above the half cent and the even cent is below, as for 0.165: Python gives 0.17, the model 0.16.
  - NaN and infinite prices are not modelled.
- Coercion of the fields is not modelled: `int(...)` and `float(...)` at app.py:194-196, and the `ValueError` mapping to a 400 "Invalid input" answer at app.py:239-243. The request fields are already typed: the months are an integer, the price a real.
- The failures that would answer 500 through the catch-all handler (app.py:241-243) are not modelled:
  - a body that is not a JSON object;
  - a present but non-string product name, where `.strip()` fails;
  - months or a price that are present but null, a list or an object: `int(None)` or `float([])` raises a `TypeError`, which the `ValueError` handler at app.py:239 does not catch;
  - a condition that is a list or an object: it cannot be hashed for the table lookup at app.py:206.
- Validation.Payload: the condition is a string. A condition of another scalar JSON type is not modelled; in Python a number or a boolean is simply not a key of the table and gets 400 "Invalid condition".
- Validation.Payload: the warranty is a string. A warranty of another JSON type is not modelled; like any string other than "Yes", it gets no bonus.
- Text.Lower: only ASCII capitals are lower-cased; Python's full Unicode case mapping is not modelled. A name can then be looked up differently: Python lowers the KELVIN SIGN U+212A to an ASCII `k`, so "MACBOO" followed by U+212A gets 0.12 through "macbook" in Python but the default 0.15 in the model.
- Pricing.CalculateMarketPrice: the months are a natural number. Negative months reach the calculator only through direct calls, because the checks refuse them first.
- Pricing.CalculateMarketPrice: requires a non-zero original price. In Python a price of 0 raises a division error, and the checks refuse it first.
- Pricing.ExactEstimate: requires a non-zero original price, for the same reason.
- Advice.Recommend: requires a non-zero original price. Python raises a division error on 0.
- The `marketFactor` of a database entry is unused by the code. Its `categories` are read only by the product listing endpoint, which is not modelled. The model carries both as data only.
