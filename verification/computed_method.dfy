/** The `+` computed method: `add` and its per-dtype `add_helper`
    specialisations. Same-dtype sums are delegated to the scalar itself;
    mixed-dtype sums follow a fixed promotion table whose result is an INT64
    scalar, a FLOAT64 scalar or the empty scalar. */
module ComputedMethod {
  import opened DTypes
  import opened MachineInt
  import opened Scalars

  /** Result dtype of `add_helper<l>` for a right operand of dtype `r`,
      written as promotion rules: a helper never handles its own dtype; a
      float helper accepts floats and the two widest signed integers; an
      integer operand meeting a float gives FLOAT64; any other integer meeting
      an INT64 gives INT64, and so does INT64 meeting INT32. */
  function HelperResultDType(l: DType, r: DType): (d: DType)
    requires l.IsNumeric()
  {
    if l == r then NoneType
    else if l.IsFloat() then (if r.IsFloat() || r == Int64 || r == Int32 then Float64 else NoneType)
    else if r.IsFloat() then Float64
    else if r == Int64 || (l == Int64 && r == Int32) then Int64
    else NoneType
  }

  /** The two FLOAT64 arms that read an operand through a `get<T>` whose `T`
      is not the operand's own type. */
  predicate ReadsWrongMember(l: DType, r: DType) {
    l == Float64 && (r == Int64 || r == Float32)
  }

  /** The signed 64-bit sums behind the INT64 results (all of them except
      UINT64 + INT64, which is unsigned) must not overflow: that would be
      undefined behaviour. The one other signed 64-bit sum, the integer reads
      of FLOAT64 + FLOAT32, depends on what a mismatched `get` returns and is
      computed exactly instead. */
  predicate SignedSumFits(x: Scalar, y: Scalar)
    requires x.WellFormed() && y.WellFormed()
  {
    var l, r := x.GetDType(), y.GetDType();
    ((l == Int64 && r == Int32) || (l.IsInteger() && l != Int64 && l != UInt64 && r == Int64))
    ==> Int64.Holds(x.i + y.i)
  }

  /** When `add` has defined behaviour: the operands are well formed, and
      if their dtypes differ the left one is numeric (otherwise `add` runs
      off its end without returning) and no signed sum overflows. */
  predicate Defined(x: Scalar, y: Scalar) {
    && x.WellFormed()
    && y.WellFormed()
    && (x.GetDType() == y.GetDType() || (x.GetDType().IsNumeric() && SignedSumFits(x, y)))
  }

  /** `add_helper<T>` for the left operand's dtype `T`. The six helpers for
      INT32, INT16, INT8, UINT32, UINT16 and UINT8 differ only in the `get<T>`
      that reads the left operand, so they compute the same thing and share
      one arm; get<double> and get<float> both read the real value. */
  function AddHelper(ops: ScalarOps, x: Scalar, y: Scalar): (r: Scalar)
    requires x.WellFormed() && y.WellFormed() && x.GetDType().IsNumeric()
    requires SignedSumFits(x, y)
    ensures r.WellFormed()
    ensures r.GetDType() == HelperResultDType(x.GetDType(), y.GetDType())
    ensures (r != Empty && !ReadsWrongMember(x.GetDType(), y.GetDType())
             && !(x.GetDType() == UInt64 && y.GetDType() == Int64))
            ==> r.Value() == x.Value() + y.Value()
    ensures x.GetDType() == UInt64 && y.GetDType() == Int64 ==>
              r == Int(Int64, if x.i + y.i < TWO_63 then x.i + y.i else x.i + y.i - TWO_64)
  {
    match x.GetDType()
    case Int64 =>
      match y.GetDType() {
        case Int32 => Int(Int64, x.i + y.i)
        case Float64 | Float32 => Float(Float64, x.i as real + y.f)
        case _ => Empty
      }
    case Int32 | Int16 | Int8 | UInt32 | UInt16 | UInt8 =>
      match y.GetDType() {
        case Int64 => Int(Int64, x.i + y.i)
        case Float64 | Float32 => Float(Float64, x.i as real + y.f)
        case _ => Empty
      }
    case UInt64 =>
      match y.GetDType() {
        case Int64 =>
          UInt64PlusInt64(x.i, y.i);
          Int(Int64, ToInt64(AddUInt64(x.i, ToUInt64(y.i))))
        case Float64 | Float32 => Float(Float64, x.i as real + y.f)
        case _ => Empty
      }
    case Float64 =>
      match y.GetDType() {
        case Int64 => Float(Float64, x.f + ops.rawInt32(y) as real)
        case Int32 => Float(Float64, x.f + y.i as real)
        case Float32 => Float(Float64, ops.rawInt64(x) as real + ops.rawInt32(y) as real)
        case _ => Empty
      }
    case Float32 =>
      match y.GetDType() {
        case Int64 | Int32 => Float(Float64, x.f + y.i as real)
        case Float64 => Float(Float64, x.f + y.f)
        case _ => Empty
      }
  }

  /** `add`: operands of one dtype are summed by the scalar itself; otherwise
      the helper for the left dtype decides, and the result follows the
      promotion table. */
  function Add(ops: ScalarOps, x: Scalar, y: Scalar): (r: Scalar)
    requires Defined(x, y)
    ensures x.GetDType() == y.GetDType() ==> r == ops.sameTypeAdd(x, y)
    ensures x.GetDType() != y.GetDType() ==>
              r.WellFormed() && r.GetDType() == HelperResultDType(x.GetDType(), y.GetDType())
    ensures (x.GetDType() != y.GetDType() && r != Empty
             && !ReadsWrongMember(x.GetDType(), y.GetDType())
             && !(x.GetDType() == UInt64 && y.GetDType() == Int64))
            ==> r.Value() == x.Value() + y.Value()
    ensures x.GetDType() == UInt64 && y.GetDType() == Int64 ==>
              r == Int(Int64, if x.i + y.i < TWO_63 then x.i + y.i else x.i + y.i - TWO_64)
  {
    if x.GetDType() == y.GetDType() then ops.sameTypeAdd(x, y) else AddHelper(ops, x, y)
  }

  /** The mixed-dtype path yields INT64, FLOAT64 or the empty scalar, and
      never FLOAT32, INT32, INT16, INT8 or an unsigned dtype. */
  lemma MixedPathResultDTypes(ops: ScalarOps, x: Scalar, y: Scalar)
    requires Defined(x, y) && x.GetDType() != y.GetDType()
    ensures var d := Add(ops, x, y).GetDType(); d == Int64 || d == Float64 || d == NoneType
    ensures var d := Add(ops, x, y).GetDType(); !d.IsUnsignedInt() && d != Float32 && d != Int32
  {
  }

  /** A mixed pair gives the empty scalar exactly when the left helper's
      switch has no case for the right dtype. */
  lemma EmptyIffUnhandled(ops: ScalarOps, x: Scalar, y: Scalar)
    requires Defined(x, y) && x.GetDType() != y.GetDType()
    ensures Add(ops, x, y) == Empty <==> HelperResultDType(x.GetDType(), y.GetDType()) == NoneType
  {
  }

  /** Pairs outside the left operand's helper's switch, all of them empty. */
  lemma UnhandledExamples(ops: ScalarOps, a: int)
    requires 0 <= a < 0x80
    ensures Add(ops, Int(Int64, a), Int(Int16, a)) == Empty
    ensures Add(ops, Int(Int16, a), Int(Int32, a)) == Empty
    ensures Add(ops, Int(UInt32, a), Int(Int32, a)) == Empty
    ensures Add(ops, Float(Float64, a as real), Int(Int8, a)) == Empty
  {
  }

  /** An integer left operand and a float right operand give the exact sum
      as a FLOAT64. */
  lemma IntegerPlusFloatIsFloat64(ops: ScalarOps, x: Scalar, y: Scalar)
    requires Defined(x, y) && x.GetDType().IsInteger() && y.GetDType().IsFloat()
    ensures Add(ops, x, y) == Float(Float64, x.Value() + y.Value())
  {
  }

  /** Every integer left operand other than INT64 and UINT64 plus an INT64,
      and INT64 plus an INT32, give the integer sum as an INT64. */
  lemma IntegerPlusInt64IsInt64Sum(ops: ScalarOps, x: Scalar, y: Scalar)
    requires Defined(x, y) && x.Int? && y.Int?
    requires (x.dt != Int64 && x.dt != UInt64 && y.dt == Int64) || (x.dt == Int64 && y.dt == Int32)
    ensures Add(ops, x, y) == Int(Int64, x.i + y.i)
  {
  }

  /** UINT64 plus INT64 is the sum modulo 2^64 read as a signed 64-bit value:
      exact when the sum fits in INT64, otherwise 2^64 less. */
  lemma UInt64PlusInt64Wraps(ops: ScalarOps, x: Scalar, y: Scalar)
    requires Defined(x, y) && x.GetDType() == UInt64 && y.GetDType() == Int64
    ensures Add(ops, x, y) == Int(Int64, if x.i + y.i < TWO_63 then x.i + y.i else x.i + y.i - TWO_64)
    ensures Add(ops, x, y).i == x.i + y.i <==> x.i + y.i < TWO_63
  {
  }

  /** The smallest UINT64 that does not fit in INT64, plus INT64 zero, comes
      out as the most negative INT64. */
  lemma UInt64WrapExample(ops: ScalarOps)
    ensures Add(ops, Int(UInt64, TWO_63), Int(Int64, 0)) == Int(Int64, -TWO_63)
  {
  }

  /** A float left operand gives FLOAT64 for every right dtype its helper
      handles, and the empty scalar for every other. */
  lemma FloatLeftIsFloat64(ops: ScalarOps, x: Scalar, y: Scalar)
    requires Defined(x, y) && x.GetDType().IsFloat() && x.GetDType() != y.GetDType()
    ensures (y.GetDType().IsFloat() || y.GetDType() == Int64 || y.GetDType() == Int32)
            ==> Add(ops, x, y).Float? && Add(ops, x, y).dt == Float64
    ensures !(y.GetDType().IsFloat() || y.GetDType() == Int64 || y.GetDType() == Int32)
            ==> Add(ops, x, y) == Empty
  {
  }

  /** The table is not symmetric: INT16 + INT64 is their INT64 sum, while
      INT64 + INT16 is empty. */
  lemma Asymmetric(ops: ScalarOps, a: int, b: int)
    requires Int16.Holds(a) && Int64.Holds(b) && Int64.Holds(a + b)
    ensures Add(ops, Int(Int16, a), Int(Int64, b)) == Int(Int64, a + b)
    ensures Add(ops, Int(Int64, b), Int(Int16, a)) == Empty
  {
  }

  /** Between two different integer dtypes, both orders are handled only for
      INT64 and INT32. */
  lemma IntegerPairsHandledBothWays(l: DType, r: DType)
    requires l.IsInteger() && r.IsInteger() && l != r
    ensures (HelperResultDType(l, r) != NoneType && HelperResultDType(r, l) != NoneType)
            <==> ((l == Int64 && r == Int32) || (l == Int32 && r == Int64))
  {
  }

  /** The result dtype of a mixed pair depends only on the two dtypes: not on
      the values, and not on the parts of the scalar outside this model. */
  lemma ResultDTypeDependsOnlyOnDTypes(ops1: ScalarOps, ops2: ScalarOps, x1: Scalar, y1: Scalar, x2: Scalar, y2: Scalar)
    requires Defined(x1, y1) && Defined(x2, y2)
    requires x1.GetDType() == x2.GetDType() && y1.GetDType() == y2.GetDType()
    requires x1.GetDType() != y1.GetDType()
    ensures Add(ops1, x1, y1).GetDType() == Add(ops2, x2, y2).GetDType()
  {
  }

  /** Mixed integer and float operands promote to a fractional FLOAT64 sum,
      in either order when the integer is INT32: 1 + 1.5 is 2.5, not 2. A
      float left operand accepts only INT64 and INT32 as integers. */
  lemma MixedIntFloatSum(ops: ScalarOps, d: DType)
    requires d.IsInteger()
    ensures Add(ops, Int(d, 1), Float(Float64, 1.5)) == Float(Float64, 2.5)
    ensures Add(ops, Float(Float64, 1.5), Int(Int32, 1)) == Float(Float64, 2.5)
    ensures Add(ops, Float(Float32, 1.5), Int(d, 1)) ==
              (if d == Int64 || d == Int32 then Float(Float64, 2.5) else Empty)
  {
  }
}
