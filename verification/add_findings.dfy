/** Two arms of `add_helper<DTYPE_FLOAT64>` read an operand through a `get<T>`
    whose `T` is not the operand's own type. Whatever value of type `T` that
    `get` returns, the results are not the sums on some inputs. `AddIntended`
    reads the operands as their own dtypes and is exact on every handled
    mixed pair except UINT64 + INT64, which wraps. */
module AddFindings {
  import opened DTypes
  import opened MachineInt
  import opened Scalars
  import opened ComputedMethod

  /** FLOAT64 + INT64 as written reads the INT64 operand as an `int32`, so
      the result never moves more than 2^31 away from the left operand. */
  lemma Float64PlusInt64StaysNearLeft(ops: ScalarOps, x: Scalar, y: Scalar)
    requires Defined(x, y) && x.GetDType() == Float64 && y.GetDType() == Int64
    ensures Add(ops, x, y).Float?
    ensures -(TWO_31 as real) <= Add(ops, x, y).f - x.f < TWO_31 as real
  {
  }

  /** FLOAT64 zero plus INT64 2^32 is not 2^32, whatever the mismatched `get` returns. */
  lemma Float64PlusInt64Counterexample(ops: ScalarOps)
    ensures Add(ops, Float(Float64, 0.0), Int(Int64, 0x1_0000_0000)).Value() != 4294967296.0
  {
    Float64PlusInt64StaysNearLeft(ops, Float(Float64, 0.0), Int(Int64, 0x1_0000_0000));
  }

  /** A whole number as a real. It exists so that the existential in
      `Float64PlusFloat32IsWhole` has a term to trigger on. */
  function Whole(n: int): (r: real)
    ensures r.Floor == n
  {
    n as real
  }

  /** FLOAT64 + FLOAT32 as written reads both operands as integers, so the
      result is always a whole number. */
  lemma Float64PlusFloat32IsWhole(ops: ScalarOps, x: Scalar, y: Scalar)
    requires Defined(x, y) && x.GetDType() == Float64 && y.GetDType() == Float32
    ensures Add(ops, x, y).Float?
    ensures exists n: int :: Add(ops, x, y).f == Whole(n)
  {
    var n := ops.rawInt64(x) + ops.rawInt32(y);
    assert Add(ops, x, y).f == Whole(n);
  }

  /** FLOAT64 0.5 plus FLOAT32 0.25 is not 0.75, whatever the mismatched `get` returns. */
  lemma Float64PlusFloat32Counterexample(ops: ScalarOps)
    ensures Add(ops, Float(Float64, 0.5), Float(Float32, 0.25)).Value() != 0.75
  {
    Float64PlusFloat32IsWhole(ops, Float(Float64, 0.5), Float(Float32, 0.25));
  }

  /** `add` with both FLOAT64 arms reading the operands as their own dtypes,
      as `add_helper<DTYPE_FLOAT32>` does: every handled mixed pair then gives
      the exact sum, except UINT64 + INT64, which wraps. */
  function AddIntended(ops: ScalarOps, x: Scalar, y: Scalar): (r: Scalar)
    requires Defined(x, y)
    ensures x.GetDType() == y.GetDType() ==> r == ops.sameTypeAdd(x, y)
    ensures x.GetDType() != y.GetDType() ==>
              r.WellFormed() && r.GetDType() == HelperResultDType(x.GetDType(), y.GetDType())
    ensures (x.GetDType() != y.GetDType() && r != Empty
             && !(x.GetDType() == UInt64 && y.GetDType() == Int64))
            ==> r.Value() == x.Value() + y.Value()
    ensures x.GetDType() == UInt64 && y.GetDType() == Int64 ==>
              r == Int(Int64, if x.i + y.i < TWO_63 then x.i + y.i else x.i + y.i - TWO_64)
  {
    if ReadsWrongMember(x.GetDType(), y.GetDType()) then Float(Float64, x.f + y.Value())
    else Add(ops, x, y)
  }

  /** The correction touches only the two FLOAT64 arms. */
  lemma IntendedAgreesElsewhere(ops: ScalarOps, x: Scalar, y: Scalar)
    requires Defined(x, y) && !ReadsWrongMember(x.GetDType(), y.GetDType())
    ensures AddIntended(ops, x, y) == Add(ops, x, y)
  {
  }

  /** With the correction, FLOAT64 + INT64 and FLOAT64 + FLOAT32 give the
      exact sums the counterexamples above miss. */
  lemma IntendedFixesCounterexamples(ops: ScalarOps)
    ensures AddIntended(ops, Float(Float64, 0.0), Int(Int64, 0x1_0000_0000)) == Float(Float64, 4294967296.0)
    ensures AddIntended(ops, Float(Float64, 0.5), Float(Float32, 0.25)) == Float(Float64, 0.75)
  {
  }
}
