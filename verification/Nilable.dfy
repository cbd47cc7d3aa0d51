/** Go pointers to immutable values and the integer widths of the API structures. */
module Nilable {

  /** A Go pointer that is only ever read through: nil, or the value it points to. */
  datatype Option<+T> = None | Some(value: T)

  type int64 = x: int | -0x8000_0000_0000_0000 <= x < 0x8000_0000_0000_0000
  type int32 = x: int | -0x8000_0000 <= x < 0x8000_0000

  const TWO_TO_32: int := 0x1_0000_0000

  predicate FitsInt32(x: int64) {
    -0x8000_0000 <= x < 0x8000_0000
  }

  /** The conversion `int32(x)`: the low 32 bits, read as a two's complement number. */
  function ToInt32(x: int64): (r: int32)
    ensures (x - r) % TWO_TO_32 == 0
    ensures r == x <==> FitsInt32(x)
  {
    var low := x % TWO_TO_32;
    if low < 0x8000_0000 then low else low - TWO_TO_32
  }

  /** No other int32 is congruent to `x`, so the contract of `ToInt32` determines it. */
  lemma ToInt32IsUnique(x: int64, r: int32)
    requires (x - r) % TWO_TO_32 == 0
    ensures r == ToInt32(x)
  {
  }
}
