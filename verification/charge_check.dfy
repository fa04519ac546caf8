/** The charge check: partial charges must stay within a fixed magnitude. */
module ChargeCheck {
  import opened Wrappers

  const ChargeThreshold: real := 3.0

  function Abs(x: real): real {
    if x < 0.0 then -x else x
  }

  /** `ChargeCheck._run_check`: None when the charge equilibration package is missing,
      otherwise whether no charge exceeds the threshold in magnitude. The charges
      themselves are computed outside the model. */
  function ChargeCheckOutcome(charges: Option<seq<real>>): (r: Option<bool>)
    ensures r.None? <==> charges.None?
    ensures charges.Some? ==>
      (r == Some(true) <==> forall k :: 0 <= k < |charges.value| ==> -ChargeThreshold <= charges.value[k] <= ChargeThreshold)
  {
    match charges
    case None => None
    case Some(cs) => Some(forall k :: 0 <= k < |cs| ==> Abs(cs[k]) <= ChargeThreshold)
  }
}
