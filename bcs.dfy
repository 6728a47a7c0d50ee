/**
 * Boundary-condition tokens and their validation (check_bcs in L-QLES/matvec.py).
 *
 * Each axis carries a pair of tokens, one per end. A token must be one of
 * D (Dirichlet), N (Neumann), R (repeating, i.e. periodic) or S (symmetry),
 * and a periodic end must be paired with a periodic end.
 */
module Bcs {

  datatype BcType = Dirichlet | Neumann | Repeating | Symmetry

  /** The validated boundary types of one axis: `low` at index 0, `high` at index n-1. */
  datatype BcPair = BcPair(low: BcType, high: BcType) {
    /** The type at end `side` (0 = low, 1 = high). */
    function At(side: nat): BcType
      requires side < 2
    {
      if side == 0 then low else high
    }
    predicate Periodic() { low == Repeating && high == Repeating }
    predicate HasDirichlet() { low == Dirichlet || high == Dirichlet }
  }

  /**
   * Two boundary rules of L-QLES/matvec.py read the wrong token (the
   * high-end symmetry row of matvec_1d and the z-face Neumann test of
   * matvec_3d). AsWritten follows the source line for line; Intended
   * applies each rule to its own end.
   */
  datatype Reading = AsWritten | Intended

  datatype BcError =
    | InvalidToken(token: string, axis: string)
    | MismatchedRepeat(low: string, high: string, axis: string)

  datatype Result<T> = Ok(value: T) | Err(error: BcError)

  /** The four accepted spellings. */
  predicate IsValidToken(tok: string) {
    tok == "D" || tok == "N" || tok == "R" || tok == "S"
  }

  function Parse(tok: string): (t: BcType)
    requires IsValidToken(tok)
    ensures (t == Repeating) <==> tok == "R"
  {
    if tok == "D" then Dirichlet
    else if tok == "N" then Neumann
    else if tok == "R" then Repeating
    else Symmetry
  }

  /** The token a boundary type is written as; the inverse of Parse. */
  function Token(t: BcType): (tok: string)
    ensures IsValidToken(tok) && Parse(tok) == t
  {
    match t
    case Dirichlet => "D"
    case Neumann => "N"
    case Repeating => "R"
    case Symmetry => "S"
  }

  lemma ParseToken(tok: string)
    requires IsValidToken(tok)
    ensures Token(Parse(tok)) == tok
  {
  }

  /**
   * check_bcs: the low token is tested first, then the high token, then the
   * periodic pairing. Each failure aborts the case (exit(1)); here it is an error value.
   */
  function CheckBcs(low: string, high: string, axis: string): (res: Result<BcPair>)
    ensures res.Err? && res.error.InvalidToken? ==> res.error.axis == axis
    ensures res.Ok? ==> Token(res.value.low) == low && Token(res.value.high) == high
    ensures res.Ok? ==> Consistent(res.value)
  {
    if !IsValidToken(low) then Err(InvalidToken(low, axis))
    else if !IsValidToken(high) then Err(InvalidToken(high, axis))
    else if (low == "R" && high != "R") || (low != "R" && high == "R") then
      Err(MismatchedRepeat(low, high, axis))
    else Ok(BcPair(Parse(low), Parse(high)))
  }

  /** A pair the validator accepts: a periodic end only together with a periodic end. */
  predicate Consistent(p: BcPair) {
    (p.low == Repeating) <==> (p.high == Repeating)
  }

  /** check_bcs succeeds exactly on valid tokens with matching periodicity, and then yields a consistent pair. */
  lemma CheckBcsAccepts(low: string, high: string, axis: string)
    ensures CheckBcs(low, high, axis).Ok? <==>
      (IsValidToken(low) && IsValidToken(high) && ((low == "R") <==> (high == "R")))
    ensures CheckBcs(low, high, axis).Ok? ==> Consistent(CheckBcs(low, high, axis).value)
  {
  }

  /** Which error is reported: the first invalid token, else the mismatched pairing. */
  lemma CheckBcsErrors(low: string, high: string, axis: string)
    ensures !IsValidToken(low) ==> CheckBcs(low, high, axis) == Err(InvalidToken(low, axis))
    ensures IsValidToken(low) && !IsValidToken(high) ==>
      CheckBcs(low, high, axis) == Err(InvalidToken(high, axis))
    ensures IsValidToken(low) && IsValidToken(high) && ((low == "R") != (high == "R")) ==>
      CheckBcs(low, high, axis) == Err(MismatchedRepeat(low, high, axis))
  {
  }

  /** Every consistent pair is accepted when written out as tokens. */
  lemma CheckBcsRoundTrip(p: BcPair, axis: string)
    requires Consistent(p)
    ensures CheckBcs(Token(p.low), Token(p.high), axis) == Ok(p)
  {
  }
}
