/** Rust's fixed-width integers as used by the vote program (i64, u64, u8),
    and the checked arithmetic it relies on. `checked_add`/`checked_sub`
    are modelled as the standard library writes them: the two's-complement
    `overflowing_*` operation, with `None` when its overflow flag is set. */
module RustInt {

  const I64_MIN: int := -0x8000_0000_0000_0000
  const I64_MAX: int := 0x7FFF_FFFF_FFFF_FFFF
  const U64_MAX: int := 0xFFFF_FFFF_FFFF_FFFF
  const TWO_64: int := 0x1_0000_0000_0000_0000

  type I64 = x: int | -0x8000_0000_0000_0000 <= x <= 0x7FFF_FFFF_FFFF_FFFF
  type U64 = x: int | 0 <= x <= 0xFFFF_FFFF_FFFF_FFFF
  type U8 = x: int | 0 <= x <= 0xFF

  datatype Option<T> = None | Some(value: T)

  /** The i64 that a 64-bit adder leaves for the mathematical value x. */
  function WrapI64(x: int): I64
  {
    (x - I64_MIN) % TWO_64 + I64_MIN
  }

  /** The u64 that a 64-bit adder leaves for the mathematical value x. */
  function WrapU64(x: int): U64
  {
    x % TWO_64
  }

  /** i64::overflowing_add: the wrapped sum, and whether two operands of
      the same sign produced a result of the other sign. */
  function OverflowingAddI64(a: I64, b: I64): (I64, bool)
  {
    var w := WrapI64(a + b);
    (w, (a < 0) == (b < 0) && (w < 0) != (a < 0))
  }

  /** i64::overflowing_sub: the wrapped difference, and whether operands of
      different signs produced a result whose sign differs from the minuend. */
  function OverflowingSubI64(a: I64, b: I64): (I64, bool)
  {
    var w := WrapI64(a - b);
    (w, (a < 0) != (b < 0) && (w < 0) != (a < 0))
  }

  /** u64::overflowing_add: the wrapped sum, and whether it carried out
      (the wrapped sum is then below the first operand). */
  function OverflowingAddU64(a: U64, b: U64): (U64, bool)
  {
    var w := WrapU64(a + b);
    (w, w < a)
  }

  /** i64::checked_add: the exact sum when it fits in i64, and None exactly
      when it does not. */
  function CheckedAddI64(a: I64, b: I64): (r: Option<I64>)
    ensures r.Some? <==> I64_MIN <= a + b <= I64_MAX
    ensures r.Some? ==> r.value == a + b
  {
    var (w, overflow) := OverflowingAddI64(a, b);
    if overflow then None else Some(w)
  }

  /** i64::checked_sub: the exact difference when it fits in i64, and None
      exactly when it does not. */
  function CheckedSubI64(a: I64, b: I64): (r: Option<I64>)
    ensures r.Some? <==> I64_MIN <= a - b <= I64_MAX
    ensures r.Some? ==> r.value == a - b
  {
    var (w, overflow) := OverflowingSubI64(a, b);
    if overflow then None else Some(w)
  }

  /** u64::checked_add: the exact sum when it fits in u64, and None exactly
      when it does not. */
  function CheckedAddU64(a: U64, b: U64): (r: Option<U64>)
    ensures r.Some? <==> a + b <= U64_MAX
    ensures r.Some? ==> r.value == a + b
  {
    var (w, overflow) := OverflowingAddU64(a, b);
    if overflow then None else Some(w)
  }
}
