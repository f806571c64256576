/**
 * The five severity tiers of carbon intensity (grams of CO2 per kWh) shared by
 * both front ends. Each tier covers a half-open range (lower, upper]: the upper
 * bound is inclusive, the lowest tier has no lower bound (so negative readings
 * are Very Low) and the highest has no upper bound.
 */
module Intensity {
  import opened Wrappers

  datatype Tier = VeryLow | Low | Moderate | High | VeryHigh

  /** Position of a tier in the ladder, 0 for the greenest. */
  function Severity(t: Tier): nat
  {
    match t
    case VeryLow => 0
    case Low => 1
    case Moderate => 2
    case High => 3
    case VeryHigh => 4
  }

  /** Inclusive upper bound of a tier; the top tier is unbounded. */
  function UpperBound(t: Tier): Option<int>
  {
    match t
    case VeryLow => Some(50)
    case Low => Some(100)
    case Moderate => Some(200)
    case High => Some(300)
    case VeryHigh => None
  }

  /** Exclusive lower bound of a tier: the upper bound of the tier below it. */
  function LowerBound(t: Tier): Option<int>
  {
    match t
    case VeryLow => None
    case Low => UpperBound(VeryLow)
    case Moderate => UpperBound(Low)
    case High => UpperBound(Moderate)
    case VeryHigh => UpperBound(High)
  }

  /** The intensity lies in the tier's range. */
  predicate InTier(t: Tier, x: int)
  {
    && (LowerBound(t).None? || LowerBound(t).value < x)
    && (UpperBound(t).None? || x <= UpperBound(t).value)
  }

  /** The tier whose range holds the intensity. */
  function Classify(x: int): (t: Tier)
    ensures InTier(t, x)
  {
    if x <= 50 then VeryLow
    else if x <= 100 then Low
    else if x <= 200 then Moderate
    else if x <= 300 then High
    else VeryHigh
  }

  /** The ranges do not overlap, so Classify picks the only tier that holds x. */
  lemma TiersAreDisjoint(t: Tier, u: Tier, x: int)
    requires InTier(t, x) && InTier(u, x)
    ensures t == u
  {
  }

  /** A higher intensity never lands in a greener tier. */
  lemma ClassifyMonotone(a: int, b: int)
    requires a <= b
    ensures Severity(Classify(a)) <= Severity(Classify(b))
  {
  }
}
