/** The fixed fee, its bounds, and the policy that folds dust change into the fee. */
module Fees {
  import opened Base

  const DEFAULT_FEE: u64 := 10_000
  const CHANGE_DUST_THRESHOLD: u64 := DEFAULT_FEE
  const MIN_FEE: u64 := DEFAULT_FEE
  const MAX_FEE: u64 := 1_000_000

  /** The largest base fee to which any dust can still be added. */
  const SAFE_FEE: u64 := MAX_FEE - (CHANGE_DUST_THRESHOLD - 1)

  datatype Effective = Effective(fee: u64, change: u64, dust: u64)

  predicate FeeInRange(fee: u64) {
    MIN_FEE <= fee <= MAX_FEE
  }

  function ValidateFee(fee: u64): Result<(), Error> {
    if fee < MIN_FEE then Err(FeeTooLow)
    else if fee > MAX_FEE then Err(FeeTooHigh)
    else Ok(())
  }

  /** The fee before selection: a validated override, or the fixed fee. */
  function BaseFee(feeOverride: Option<u64>): (r: Result<u64, Error>)
    ensures r.Ok? ==> FeeInRange(r.value)
    ensures r.Err? <==> feeOverride.Some? && !FeeInRange(feeOverride.value)
    ensures r == match feeOverride
                 case None => Ok(10_000)
                 case Some(fee) =>
                   if fee < 10_000 then Err(FeeTooLow) else if fee > 1_000_000 then Err(FeeTooHigh) else Ok(fee)
  {
    match feeOverride
    case None => Ok(DEFAULT_FEE)
    case Some(fee) =>
      match ValidateFee(fee)
      case Err(e) => Err(e)
      case Ok(_) => Ok(fee)
  }

  function ApplyDustPolicy(baseFee: u64, change: u64): Result<Effective, Error> {
    if change == 0 || change >= CHANGE_DUST_THRESHOLD then Ok(Effective(baseFee, change, 0))
    else if baseFee + change > U64_MAX then Err(AmountOverflow)
    else if baseFee + change > MAX_FEE then Err(FeeTooHigh)
    else Ok(Effective(baseFee + change, 0, change))
  }

  /** There is change, it is dust, and the fee has no room for it. */
  predicate DustDoesNotFit(baseFee: u64, change: u64) {
    0 < change < CHANGE_DUST_THRESHOLD && baseFee + change > MAX_FEE
  }

  /**
   The policy moves value between fee and change but never creates or loses any, leaves
   no dust behind, and refuses exactly when the fee would leave its range.
   */
  lemma DustPolicyConserves(baseFee: u64, change: u64)
    ensures ApplyDustPolicy(baseFee, change).Err? <==> DustDoesNotFit(baseFee, change)
    ensures ApplyDustPolicy(baseFee, change).Ok? ==>
              var e := ApplyDustPolicy(baseFee, change).value;
              && e.fee + e.change == baseFee + change
              && e.fee == baseFee + e.dust
              && (e.change == 0 || (e.change >= CHANGE_DUST_THRESHOLD && e.dust == 0))
              && (FeeInRange(baseFee) ==> FeeInRange(e.fee))
  {
  }
}
