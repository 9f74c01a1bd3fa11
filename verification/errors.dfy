/** The exceptions the J-PAKE engine can raise, one constructor per distinct
    cause. Several causes share one Python exception class; the doc comment of
    each constructor names it. */
module Errors {

  datatype Error =
      /** `DuplicateSignerError`: a proof carries the verifier's own signer id. */
    | DuplicateSigner
      /** `InvalidProofError`: the Schnorr verification equation fails. */
    | InvalidProof
      /** `ValueError`: `data` given together with an explicit keyword value. */
    | UnexpectedKeyword
      /** `ValueError`: exactly one of `gx3` / `gx4` given to the constructor. */
    | OnlyOneOfGx3Gx4
      /** `ValueError`: the peer's `gx4` reduces to 1 modulo `p`. */
    | DegenerateGx4
      /** `ValueError`: `pow` with a negative exponent and a base that has no
          inverse modulo `p`. */
    | NotInvertible
      /** `OverflowError`: `int.to_bytes` of a negative number, or of a
          length that does not fit the 2-byte header. */
    | Overflow
      /** Bare `Exception`: a field longer than 2^16 bytes in the hash input. */
    | FieldTooLong
      /** `TypeError`: a value that was left as `None` is used in arithmetic or
          subscripted. */
    | MissingValue
      /** `AttributeError`: a session attribute is read before any step set it. */
    | MissingAttribute
}
