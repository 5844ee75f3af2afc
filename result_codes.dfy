/** The ResultCode enumeration shared by the fluid solver, the field solver and
    the coordinator (result_codes.h). */
module ResultCodes {

  datatype ResultCode =
    | FluidSuccess
    | FluidIterationsLimitExceeded
    | FluidInvalidResult
    | FieldSuccess
    | FieldIterationsLimitExceeded
    | FieldInvalidResult
    | InvalidResult
    | Success
    | TargetReached
    | AccuracyNotReached

  /** The enumerator values the C++ compiler assigns, in declaration order. */
  function Ordinal(code: ResultCode): (k: int)
    ensures 0 <= k < 10
  {
    match code
    case FluidSuccess => 0
    case FluidIterationsLimitExceeded => 1
    case FluidInvalidResult => 2
    case FieldSuccess => 3
    case FieldIterationsLimitExceeded => 4
    case FieldInvalidResult => 5
    case InvalidResult => 6
    case Success => 7
    case TargetReached => 8
    case AccuracyNotReached => 9
  }

  /** The code a stored enumerator value stands for: the inverse of Ordinal. */
  function CodeOf(k: int): (code: ResultCode)
    requires 0 <= k < 10
    ensures Ordinal(code) == k
  {
    if k == 0 then FluidSuccess
    else if k == 1 then FluidIterationsLimitExceeded
    else if k == 2 then FluidInvalidResult
    else if k == 3 then FieldSuccess
    else if k == 4 then FieldIterationsLimitExceeded
    else if k == 5 then FieldInvalidResult
    else if k == 6 then InvalidResult
    else if k == 7 then Success
    else if k == 8 then TargetReached
    else AccuracyNotReached
  }

  /** Distinct codes have distinct enumerator values. */
  lemma OrdinalRoundTrip(code: ResultCode)
    ensures CodeOf(Ordinal(code)) == code
  {
  }
}
