/**
 The C integer types the drivers use, as subsets of `int`, and the arithmetic that C
 performs on them.

 A signed operation is written `:- Int32(e)`, where `e` is its exact result: the outcome is
 `Defined(e)` when the result is representable and `Undefined` when it is not, because C
 gives a signed overflow no meaning. `x / 2^n` is a right shift (Dafny's division by a
 positive constant rounds towards minus infinity, as an arithmetic shift does) and
 `x * 2^n` is a left shift.
 */
module Machine {
  type u8 = x: int | 0 <= x < 0x100
  type u16 = x: int | 0 <= x < 0x1_0000
  type u20 = x: int | 0 <= x < 0x10_0000
  type u32 = x: int | 0 <= x < 0x1_0000_0000
  type s16 = x: int | -0x8000 <= x < 0x8000
  type s32 = x: int | -0x8000_0000 <= x < 0x8000_0000
  type s64 = x: int | -0x8000_0000_0000_0000 <= x < 0x8000_0000_0000_0000

  datatype Checked<+T> = Undefined | Defined(value: T) {
    predicate IsFailure() {
      Undefined?
    }

    function PropagateFailure<U>(): Checked<U>
      requires Undefined?
    {
      Undefined
    }

    function Extract(): T
      requires Defined?
    {
      value
    }
  }

  datatype Option<+T> = None | Some(value: T)

  predicate InS32(x: int) {
    -0x8000_0000 <= x < 0x8000_0000
  }

  predicate InS64(x: int) {
    -0x8000_0000_0000_0000 <= x < 0x8000_0000_0000_0000
  }

  function Int32(x: int): Checked<s32> {
    if InS32(x) then Defined(x) else Undefined
  }

  function Int64(x: int): Checked<s64> {
    if InS64(x) then Defined(x) else Undefined
  }

  /** Unsigned operations and conversions to `u32` wrap around. */
  function U32(x: int): u32 {
    x % 0x1_0000_0000
  }

  lemma U32IsZero(x: s32)
    ensures U32(x) == 0 <==> x == 0
  {
  }

  /** Conversion of a `u32` to `s32`, two's complement. */
  function S32(x: u32): s32 {
    if x < 0x8000_0000 then x else x - 0x1_0000_0000
  }

  lemma ConversionsInvert(x: s32)
    ensures S32(U32(x)) == x
  {
  }

  /** C division of signed numbers: it truncates towards zero. */
  function TruncDiv(x: int, y: int): int
    requires y != 0
  {
    if x >= 0 then x / y else -((-x) / y)
  }
}
