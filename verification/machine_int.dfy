/** Fixed-width integer arithmetic as C++ performs it on `std::int32_t`,
    `std::int64_t` and `std::uint64_t`, written out over unbounded integers. */
module MachineInt {

  const TWO_31: int := 0x8000_0000
  const TWO_63: int := 0x8000_0000_0000_0000
  const TWO_64: int := 0x1_0000_0000_0000_0000

  type int32 = v: int | -TWO_31 <= v < TWO_31
  type int64 = v: int | -TWO_63 <= v < TWO_63
  type uint64 = v: int | 0 <= v < TWO_64

  /** Conversion of an `int64` operand to `std::uint64_t`: the value in
      range that is congruent to `v` modulo 2^64. */
  function ToUInt64(v: int64): (r: uint64)
    ensures (r - v) % TWO_64 == 0
    ensures 0 <= v ==> r == v
  {
    v % TWO_64
  }

  /** `+` on two `std::uint64_t` operands, which wraps modulo 2^64. */
  function AddUInt64(a: uint64, b: uint64): (r: uint64)
    ensures (r - (a + b)) % TWO_64 == 0
  {
    if a + b < TWO_64 then a + b else a + b - TWO_64
  }

  /** `static_cast<std::int64_t>` of a `std::uint64_t`: the two's complement
      reading of the same 64 bits. */
  function ToInt64(u: uint64): (r: int64)
    ensures (r - u) % TWO_64 == 0
    ensures u < TWO_63 ==> r == u
  {
    if u < TWO_63 then u else u - TWO_64
  }

  /** Adding an `int64` to a `uint64` in unsigned arithmetic and casting the
      sum back to `int64` gives the true sum when it fits in `int64`, and the
      true sum minus 2^64 otherwise; it never fails. */
  lemma UInt64PlusInt64(a: uint64, b: int64)
    ensures ToInt64(AddUInt64(a, ToUInt64(b))) ==
              if a + b < TWO_63 then a + b else a + b - TWO_64
  {
    if b < 0 {
      assert ToUInt64(b) == b + TWO_64;
    } else {
      assert ToUInt64(b) == b;
    }
  }

  /** The cast result equals the true sum exactly when the true sum fits in
      `int64`. */
  lemma UInt64PlusInt64ExactIff(a: uint64, b: int64)
    ensures ToInt64(AddUInt64(a, ToUInt64(b))) == a + b <==> a + b < TWO_63
  {
    UInt64PlusInt64(a, b);
  }
}
