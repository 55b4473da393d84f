/** Java's 32-bit `int`, which the source uses for state ids, movements and
    the tape pointer. Dafny's `int` is unbounded, so the wrap-around of a Java
    addition is written out explicitly. */
module JavaInt {

  const INT_MIN: int := -0x8000_0000
  const INT_MAX: int := 0x7fff_ffff

  /** The values a Java `int` can hold. */
  type int32 = x: int | -0x8000_0000 <= x < 0x8000_0000

  /** The two's-complement reduction Java applies to the result of `a + b`. */
  function Wrap32(x: int): (r: int32)
    ensures INT_MIN <= x <= INT_MAX ==> r == x
    ensures (r - x) % 0x1_0000_0000 == 0
  {
    (x - INT_MIN) % 0x1_0000_0000 + INT_MIN
  }

  /** Java's `a + b` where `a` is a small non-negative pointer: the sum can
      only overflow upward, and then wraps to a negative value. */
  function AddToPointer(a: int, b: int32): int32
    requires 0 <= a <= 0x7fff
  {
    if a + b > INT_MAX then a + b - 0x1_0000_0000 else a + b
  }

  /** `AddToPointer` is Java's wrapped addition, and a wrapped sum lands in
      `[0, bound]` exactly when the true sum does, in which case the two are
      equal: wrapping never changes whether a move stays on the tape. */
  lemma AddToPointerWraps(a: int, b: int32, bound: int)
    requires 0 <= a <= bound <= 0x7fff
    ensures AddToPointer(a, b) == Wrap32(a + b)
    ensures 0 <= AddToPointer(a, b) <= bound <==> 0 <= a + b <= bound
    ensures 0 <= a + b <= bound ==> AddToPointer(a, b) == a + b
  {
    var x := a + b;
    if x > INT_MAX {
      assert x - INT_MIN < 2 * 0x1_0000_0000;
      assert (x - INT_MIN) % 0x1_0000_0000 == x - INT_MIN - 0x1_0000_0000;
    }
  }
}
