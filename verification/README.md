# Perspective `+` computed method: mixed-dtype scalar addition

This project models Perspective's built-in `"+"` computed-column method. In
the source, `computed_method::add` takes two tagged scalars (`t_tscalar`).
When both have the same dtype, it hands the sum to the scalar's own `add`.
Otherwise it picks the `add_helper` specialisation for the left dtype. That
helper switches on the right dtype and returns one of three things: an INT64
scalar, a FLOAT64 scalar, or a default-constructed empty scalar when it has
no case for the pair.

Modules:

- `DTypes` (`dtypes.dfy`): the dtype tags, their classes (signed integer,
  unsigned integer, float) and the integer ranges.
- `MachineInt` (`machine_int.dfy`): the C++ `uint64`/`int64` conversions and
  the wrapping `uint64` addition, written out over unbounded integers.
- `Scalars` (`scalar.dfy`): the scalar as a tagged datatype
  (`Empty | Int | Float | Other`). It also holds `ScalarOps`, the parts of
  `t_tscalar` whose definitions are not in this model.
- `ComputedMethod` (`computed_method.dfy`): `AddHelper` (the ten
  specialisations), `Add`, and a reference promotion table
  `HelperResultDType`, written as rules rather than as a switch. There are
  lemmas for each property of the table.
- `AddFindings` (`add_findings.dfy`): two defects in the FLOAT64 helper and
  the corrected `AddIntended`.

Float values are exact reals. Integer values are exact integers, with their
dtype's range made explicit. The UINT64 + INT64 wrap is modelled bit-exactly.

`add` never sees the computed column's declared type. Its result dtype comes
only from the operand dtypes.

## Model

| member | source | states |
|---|---|---|
| `MachineInt.ToUInt64` | cpp/perspective/src/cpp/computed_method.cpp:113 | converting an int64 operand to uint64 gives the in-range value congruent to it modulo 2^64, and leaves non-negative values unchanged |
| `MachineInt.AddUInt64` | cpp/perspective/src/cpp/computed_method.cpp:113 | uint64 `+` gives the in-range value congruent to the true sum modulo 2^64 |
| `MachineInt.ToInt64` | cpp/perspective/src/cpp/computed_method.cpp:114 | casting uint64 to int64 gives the int64 congruent to it modulo 2^64, and leaves values below 2^63 unchanged |
| `MachineInt.UInt64PlusInt64` | cpp/perspective/src/cpp/computed_method.cpp:112-114 | the unsigned sum cast back to int64 is the true sum when that is below 2^63, and the true sum minus 2^64 otherwise |
| `MachineInt.UInt64PlusInt64ExactIff` | cpp/perspective/src/cpp/computed_method.cpp:112-114 | the cast result equals the true sum if and only if the sum fits in int64 |
| `ComputedMethod.AddHelper` | cpp/perspective/src/cpp/computed_method.cpp:15-243 | every helper returns a well-formed scalar whose dtype is the reference table's entry for the pair. Handled pairs give the exact sum, except the two FLOAT64 arms that read the wrong member. UINT64 + INT64 gives the wrapped sum |
| `ComputedMethod.Add` | cpp/perspective/src/cpp/computed_method.cpp:245-286 | equal dtypes give exactly the scalar's own same-type sum. Different dtypes (left one numeric) give a well-formed result whose dtype is the reference table's entry, with the exact sum wherever the helper reads its operands correctly, except UINT64 + INT64, which gives the sum modulo 2^64 read as signed |
| `ComputedMethod.MixedPathResultDTypes` | cpp/perspective/src/cpp/computed_method.cpp:16-243 | the mixed path only produces INT64, FLOAT64 or empty, and never FLOAT32, INT32 or an unsigned dtype |
| `ComputedMethod.EmptyIffUnhandled` | cpp/perspective/src/cpp/computed_method.cpp:15-243 | a mixed pair gives the empty scalar if and only if the left helper's switch has no case for the right dtype |
| `ComputedMethod.UnhandledExamples` | cpp/perspective/src/cpp/computed_method.cpp:19-216 | INT64+INT16, INT16+INT32, UINT32+INT32 and FLOAT64+INT8 each give the empty scalar |
| `ComputedMethod.IntegerPlusFloatIsFloat64` | cpp/perspective/src/cpp/computed_method.cpp:24-191 | an integer left operand with a FLOAT64 or FLOAT32 right operand gives the exact sum as FLOAT64 |
| `ComputedMethod.IntegerPlusInt64IsInt64Sum` | cpp/perspective/src/cpp/computed_method.cpp:20-183 | INT32, INT16, INT8, UINT32, UINT16 or UINT8 plus INT64, and INT64 plus INT32, give the integer sum as INT64 |
| `ComputedMethod.UInt64PlusInt64Wraps` | cpp/perspective/src/cpp/computed_method.cpp:112-114 | UINT64 + INT64 is an INT64 holding the sum modulo 2^64, read as signed. It is exact if and only if the sum is below 2^63 |
| `ComputedMethod.UInt64WrapExample` | cpp/perspective/src/cpp/computed_method.cpp:112-114 | UINT64 2^63 plus INT64 0 gives INT64 -2^63 |
| `ComputedMethod.FloatLeftIsFloat64` | cpp/perspective/src/cpp/computed_method.cpp:199-243 | a float left operand gives FLOAT64 for the other float, INT64 and INT32, and gives empty for every other right dtype |
| `ComputedMethod.Asymmetric` | cpp/perspective/src/cpp/computed_method.cpp:19-68 | INT16 + INT64 gives their INT64 sum, while INT64 + INT16 gives empty |
| `ComputedMethod.IntegerPairsHandledBothWays` | cpp/perspective/src/cpp/computed_method.cpp:15-197 | for two different integer dtypes, both orders are handled if and only if the pair is INT64 and INT32 |
| `ComputedMethod.ResultDTypeDependsOnlyOnDTypes` | cpp/perspective/src/cpp/computed_method.cpp:245-286 | the result dtype of a mixed pair is fixed by the two dtypes, whatever the values and the unmodelled scalar internals |
| `ComputedMethod.MixedIntFloatSum` | packages/perspective/test/js/computed.js:122-136 | every integer dtype's 1 plus FLOAT64 1.5 gives FLOAT64 2.5 (not 2), and so does FLOAT64 1.5 plus INT32 1. A float left operand accepts only INT64 and INT32 as integers (FLOAT32 1.5 plus any other integer is empty), and FLOAT64 + INT64 is not exact |
| `AddFindings.Float64PlusInt64StaysNearLeft` | cpp/perspective/src/cpp/computed_method.cpp:204-207 | as written, FLOAT64 + INT64 stays within 2^31 of the left operand whatever the mismatched `get` returns |
| `AddFindings.Float64PlusInt64Counterexample` | cpp/perspective/src/cpp/computed_method.cpp:204-207 | as written, FLOAT64 0 + INT64 2^32 does not give 2^32 |
| `AddFindings.Float64PlusFloat32IsWhole` | cpp/perspective/src/cpp/computed_method.cpp:212-215 | as written, FLOAT64 + FLOAT32 always gives a whole number, whatever the mismatched `get` returns |
| `AddFindings.Float64PlusFloat32Counterexample` | cpp/perspective/src/cpp/computed_method.cpp:212-215 | as written, FLOAT64 0.5 + FLOAT32 0.25 does not give 0.75 |
| `AddFindings.AddIntended` | cpp/perspective/src/cpp/computed_method.cpp:199-243 | the corrected `add` keeps the same dtype table and gives the exact sum for every handled mixed pair. The one exception is UINT64 + INT64, which gives the same wrapped sum as `add` |
| `AddFindings.IntendedAgreesElsewhere` | cpp/perspective/src/cpp/computed_method.cpp:199-243 | the correction changes nothing outside the two FLOAT64 arms |
| `AddFindings.IntendedFixesCounterexamples` | cpp/perspective/src/cpp/computed_method.cpp:204-215 | the corrected method gives 2^32 and 0.75 on the two counterexamples |

## Left out

- `t_tscalar::add`, used for same-dtype operands, is declared in a header that is not part of this model. It is the parameter `ScalarOps.sameTypeAdd`, and the model states only that `add` returns its result unchanged.
- What `get<std::int32_t>()` / `get<std::int64_t>()` return for a scalar stored under another dtype is defined in the scalar header, which is not part of this model. They are the parameters `ScalarOps.rawInt32` / `ScalarOps.rawInt64`, constrained only to return a value of their declared type. Both findings below hold for any such `get`.
- Three more behaviours of the scalar header are assumed, because it is not part of this model. `set(std::int64_t)` tags the result INT64. `set(double)` tags it FLOAT64. `get<T>` with the scalar's own type returns the value it holds.
- ComputedMethod.Add: states no value for FLOAT64 + INT64 and FLOAT64 + FLOAT32, because those arms depend on what a mismatched `get` returns, which is not modelled. Only their FLOAT64 dtype, and the bounds in `AddFindings`, are proved.
- Floating point: FLOAT64/FLOAT32 values and sums are exact reals. The model omits the rounding when integers convert to double, and the rounding of the sums.
- In the integer + FLOAT32 arms (lines 29, 52, 75, 98, 121, 144, 167, 190) and the FLOAT32 + INT64/INT32 arms (lines 228, 232), the integer is converted to `float` and the sum is computed in single precision before it is widened to double. For example, INT64 16777217 + FLOAT32 0 gives 16777216. The model's exact sum omits this loss of precision.
- Signed int64 overflow in the INT64-result arms is undefined behaviour in C++. `Defined` excludes it by precondition rather than modelling a wrap.
- ComputedMethod.AddHelper: the int64 sum of the two integer reads at line 213 (FLOAT64 + FLOAT32) can also overflow, which is undefined behaviour. Its operands depend on what a mismatched `get` returns, so the model computes that sum exactly and neither excludes nor wraps the overflow.
- A mixed pair whose left dtype is not numeric makes `add` fall off its end without returning, which is undefined behaviour. `Defined` excludes it by precondition.
- The dtype of a default-constructed scalar is taken to be `NoneType`, because the scalar header is not part of this model. Other non-numeric dtypes are opaque tags (`NonNumeric`).
- `static_cast<std::int64_t>` of a `uint64` at or above 2^63 is taken as two's complement. The language standard fixes it that way only from C++20.
- packages/perspective/test/js/computed.js drives a table/view engine whose sources are not part of this model: table construction, computed-column registration with JS closures, views, pivots and serialisation. Only its arithmetic outcome for `+` is stated, in `MixedIntFloatSum`.

## Findings

| source | as written | input that shows it | evidently intended | confidence | as-written member | corrected member |
|---|---|---|---|---|---|---|
| cpp/perspective/src/cpp/computed_method.cpp:205 | FLOAT64 + INT64 reads the INT64 operand with `get<std::int32_t>()` | FLOAT64 0.0 + INT64 4294967296: the result is within 2^31 of 0, so it is not 4294967296 | `x.get<double>() + y.get<std::int64_t>()`, as in the FLOAT32 helper (line 228) | high (not executed) | `AddFindings.Float64PlusInt64Counterexample` | `AddFindings.AddIntended` |
| cpp/perspective/src/cpp/computed_method.cpp:213 | FLOAT64 + FLOAT32 reads the FLOAT64 operand with `get<std::int64_t>()` and the FLOAT32 operand with `get<std::int32_t>()` | FLOAT64 0.5 + FLOAT32 0.25: the result is a whole number, so it is not 0.75 | `x.get<double>() + y.get<float>()`, as in the FLOAT32 helper (line 236) | high (not executed) | `AddFindings.Float64PlusFloat32Counterexample` | `AddFindings.AddIntended` |
