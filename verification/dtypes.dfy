/** The scalar types (`t_dtype`) that the `+` computed method tells apart.
    The ten numeric dtypes each have their own `add_helper` specialisation;
    every other dtype of the engine matters here only through equality. */
module DTypes {

  datatype DType =
    | Int64 | Int32 | Int16 | Int8
    | UInt64 | UInt32 | UInt16 | UInt8
    | Float64 | Float32
      /** The dtype of a default-constructed scalar. */
    | NoneType
      /** Any other dtype of the engine (string, boolean, date, time, ...). */
    | NonNumeric(tag: nat)
  {
    predicate IsSignedInt() {
      Int64? || Int32? || Int16? || Int8?
    }

    predicate IsUnsignedInt() {
      UInt64? || UInt32? || UInt16? || UInt8?
    }

    predicate IsInteger() {
      IsSignedInt() || IsUnsignedInt()
    }

    predicate IsFloat() {
      Float64? || Float32?
    }

    /** The dtypes `add` dispatches on. */
    predicate IsNumeric() {
      IsInteger() || IsFloat()
    }

    /** Smallest value of an integer dtype. */
    function MinValue(): (m: int)
      requires IsInteger()
    {
      match this
      case Int64 => -0x8000_0000_0000_0000
      case Int32 => -0x8000_0000
      case Int16 => -0x8000
      case Int8 => -0x80
      case _ => 0
    }

    /** Largest value of an integer dtype. */
    function MaxValue(): (m: int)
      requires IsInteger()
    {
      match this
      case Int64 => 0x7FFF_FFFF_FFFF_FFFF
      case Int32 => 0x7FFF_FFFF
      case Int16 => 0x7FFF
      case Int8 => 0x7F
      case UInt64 => 0xFFFF_FFFF_FFFF_FFFF
      case UInt32 => 0xFFFF_FFFF
      case UInt16 => 0xFFFF
      case _ => 0xFF
    }

    /** Whether `v` is a value of this integer dtype. */
    predicate Holds(v: int)
      requires IsInteger()
    {
      MinValue() <= v <= MaxValue()
    }
  }
}
