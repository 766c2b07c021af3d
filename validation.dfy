/**
 * The input checks of the prediction endpoint: every field present, a
 * positive price, a non-negative number of months and a known condition,
 * in that order, with the product name stripped of surrounding whitespace.
 */
module Validation {
  import opened Wrappers
  import opened Text
  import opened Catalog

  /** A request body: each of the five fields may be absent. */
  datatype Payload = Payload(
    productName: Option<string>,
    condition: Option<string>,
    usageMonths: Option<int>,
    warranty: Option<string>,
    originalPrice: Option<real>)

  /** The accepted product data handed to the calculator. */
  datatype Query = Query(
    productName: string,
    condition: string,
    usageMonths: nat,
    warranty: string,
    originalPrice: real)

  /** Why a request is refused, one case per check. */
  datatype ValidationError = MissingFields | NonPositivePrice | NegativeUsage | InvalidCondition

  /** The error text reported for each refusal; it is never empty. */
  function Message(e: ValidationError): (m: string)
    ensures m != []
  {
    match e
    case MissingFields => "Missing required fields"
    case NonPositivePrice => "Original price must be greater than 0"
    case NegativeUsage => "Usage months cannot be negative"
    case InvalidCondition => "Invalid condition"
  }

  /** Each refusal is reported with its own text. */
  lemma MessagesDistinct(e1: ValidationError, e2: ValidationError)
    ensures Message(e1) == Message(e2) ==> e1 == e2
  {
    if e1 != e2 {
      assert Message(e1)[0] != Message(e2)[0];
    }
  }

  /** Every required field is present. */
  predicate HasAllFields(p: Payload)
  {
    p.productName.Some? && p.condition.Some? && p.usageMonths.Some? && p.warranty.Some? && p.originalPrice.Some?
  }

  /**
   * The checks in the order the endpoint makes them; the first that fails
   * decides the error. An accepted request becomes a query whose product
   * name is stripped and whose other fields are copied.
   */
  function Validate(p: Payload): (r: Result<Query, ValidationError>)
    ensures r == Err(MissingFields) <==> !HasAllFields(p)
    ensures r == Err(NonPositivePrice) <==> HasAllFields(p) && p.originalPrice.value <= 0.0
    ensures r == Err(NegativeUsage) <==>
      HasAllFields(p) && p.originalPrice.value > 0.0 && p.usageMonths.value < 0
    ensures r == Err(InvalidCondition) <==>
      HasAllFields(p) && p.originalPrice.value > 0.0 && p.usageMonths.value >= 0
      && p.condition.value !in ConditionMultipliers
    ensures r.Ok? ==>
      && HasAllFields(p)
      && r.value.productName == Strip(p.productName.value)
      && r.value.condition == p.condition.value
      && r.value.usageMonths == p.usageMonths.value
      && r.value.warranty == p.warranty.value
      && r.value.originalPrice == p.originalPrice.value
    ensures r.Ok? ==> r.value.originalPrice > 0.0 && r.value.condition in ConditionMultipliers
  {
    if !HasAllFields(p) then
      Err(MissingFields)
    else if p.originalPrice.value <= 0.0 then
      Err(NonPositivePrice)
    else if p.usageMonths.value < 0 then
      Err(NegativeUsage)
    else if p.condition.value !in ConditionMultipliers then
      Err(InvalidCondition)
    else
      Ok(Query(
        Strip(p.productName.value),
        p.condition.value,
        p.usageMonths.value,
        p.warranty.value,
        p.originalPrice.value))
  }

  /** The request body that carries a query's fields unchanged. */
  function Resubmit(q: Query): Payload
  {
    Payload(Some(q.productName), Some(q.condition), Some(q.usageMonths), Some(q.warranty), Some(q.originalPrice))
  }

  /** Sending an accepted query back through the checks accepts it again, unchanged. */
  lemma RevalidateAccepted(p: Payload)
    requires Validate(p).Ok?
    ensures Validate(Resubmit(Validate(p).value)) == Validate(p)
  {
    StripIdempotent(p.productName.value);
  }

  /** The calculator never falls back to the default multiplier for an accepted condition. */
  lemma AcceptedConditionHasMultiplier(p: Payload)
    requires Validate(p).Ok?
    ensures ConditionMultiplier(Validate(p).value.condition) == ConditionMultipliers[Validate(p).value.condition]
  {
  }
}
