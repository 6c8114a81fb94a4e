/** Validity of a candidate pair of bounds under the sign and degeneracy
    policies (csnorm/src/BoundsChecker.hpp). The source selects the policy
    by a tag type; here it is a datatype variant. */
module Bounds {
  import opened Basics

  /** `bounds_t`: a lower and an upper bound. */
  datatype BoundsPair = BoundsPair(lower: real, upper: real)

  /** One checker per policy tag, built from the vector its constructor takes
      (`beta` for the sign policies, the forbidden values for the degeneracy
      policies). */
  datatype BoundsChecker =
    | PositiveSign(beta: seq<real>)
    | AnySign
    | ForbidDegeneracy(forbiddenValues: seq<real>)
    | AllowDegeneracy

  /** `is_valid`. An empty vector has minimum `+inf` and maximum `-inf`,
      so it constrains nothing. */
  function IsValid(checker: BoundsChecker, bounds: BoundsPair): (r: bool)
    ensures checker.PositiveSign? ==>
              (r <==> forall i :: 0 <= i < |checker.beta| ==> bounds.lower <= checker.beta[i])
    ensures checker.ForbidDegeneracy? ==>
              (r <==> forall i :: 0 <= i < |checker.forbiddenValues| ==>
                        bounds.lower <= checker.forbiddenValues[i] <= bounds.upper)
    ensures checker.AnySign? || checker.AllowDegeneracy? ==> r
  {
    match checker
    case PositiveSign(beta) =>
      if |beta| == 0 then true
      else SeqMinBounds(beta); bounds.lower <= SeqMin(beta)
    case AnySign => true
    case ForbidDegeneracy(fv) =>
      if |fv| == 0 then true
      else
        SeqMinBounds(fv);
        SeqMaxBounds(fv);
        bounds.lower <= SeqMin(fv) && SeqMax(fv) <= bounds.upper
    case AllowDegeneracy => true
  }

  /** Under `ForbidDegeneracy`, valid bounds form a non-empty interval as soon
      as there is one forbidden value, and widening valid bounds keeps them
      valid. */
  lemma ForbidDegeneracyWidening(fv: seq<real>, bounds: BoundsPair, wider: BoundsPair)
    requires IsValid(ForbidDegeneracy(fv), bounds)
    requires wider.lower <= bounds.lower && bounds.upper <= wider.upper
    ensures |fv| > 0 ==> bounds.lower <= bounds.upper
    ensures IsValid(ForbidDegeneracy(fv), wider)
  {
    if |fv| > 0 {
      assert bounds.lower <= fv[0] <= bounds.upper;
    }
  }
}
