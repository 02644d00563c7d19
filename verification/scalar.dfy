/** The engine's tagged scalar (`t_tscalar`) as far as `+` observes it: a
    dtype and, for the numeric dtypes, a value. */
module Scalars {
  import opened DTypes
  import opened MachineInt

  datatype Scalar =
      /** A default-constructed scalar: what a helper returns for a pair it
          does not handle. */
    | Empty
      /** A scalar of one of the eight integer dtypes. */
    | Int(dt: DType, i: int)
      /** A scalar of FLOAT64 or FLOAT32; the value is kept as an exact real. */
    | Float(dt: DType, f: real)
      /** A scalar of a non-numeric dtype; its payload plays no part here. */
    | Other(dt: DType)
  {
    /** `get_dtype()`. */
    function GetDType(): (d: DType) {
      if Empty? then NoneType else dt
    }

    /** The tag agrees with the kind of value, and an integer value lies in
        the range of its dtype. */
    predicate WellFormed() {
      match this
      case Empty => true
      case Int(d, v) => d.IsInteger() && d.Holds(v)
      case Float(d, _) => d.IsFloat()
      case Other(d) => !d.IsNumeric() && d != NoneType
    }

    /** The number a numeric scalar holds. */
    function Value(): (v: real)
      requires Int? || Float?
    {
      if Int? then i as real else f
    }
  }

  /** The parts of `t_tscalar` whose definitions are not part of this model,
      supplied as values so that every property below holds whatever they are. */
  datatype ScalarOps = ScalarOps(
    /** `t_tscalar::add`, used when both operands have the same dtype. */
    sameTypeAdd: (Scalar, Scalar) -> Scalar,
    /** `get<std::int32_t>()` on a scalar stored under another dtype: some
        `int32` value, which the scalar header decides. */
    rawInt32: Scalar -> int32,
    /** `get<std::int64_t>()` on a scalar stored under another dtype. */
    rawInt64: Scalar -> int64)
}
