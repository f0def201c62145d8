/** Kotlin's fixed-width integers: `Int` wraps around modulo 2^32. */
module KotlinInt {
  /** Kotlin's `Int`. */
  newtype Int32 = x: int | -0x8000_0000 <= x < 0x8000_0000

  /** Kotlin's `Long`. */
  newtype Int64 = x: int | -0x8000_0000_0000_0000 <= x < 0x8000_0000_0000_0000

  /** The two's-complement reading of the low 32 bits of `x`. */
  function Wrap32(x: int): (r: int)
    ensures -0x8000_0000 <= r < 0x8000_0000
  {
    (x + 0x8000_0000) % 0x1_0000_0000 - 0x8000_0000
  }

  /** `c + 1` on a Kotlin `Int`: `Int.MAX_VALUE + 1` is `Int.MIN_VALUE`. */
  function Increment(c: Int32): (r: Int32)
    ensures r as int == Wrap32(c as int + 1)
  {
    if c == 0x7fff_ffff then -0x8000_0000 else c + 1
  }

  /** A value already in range is its own wrap. */
  lemma WrapInRange(x: int)
    requires -0x8000_0000 <= x < 0x8000_0000
    ensures Wrap32(x) == x
  {
  }

  /** Wrapping before or after adding one gives the same `Int`. */
  lemma WrapAddOne(x: int)
    ensures Wrap32(Wrap32(x) + 1) == Wrap32(x + 1)
  {
    var m := 0x1_0000_0000;
    var y := x + 0x8000_0000;
    var q := y / m;
    assert y == q * m + y % m;
    assert y + 1 == q * m + (y % m + 1);
  }
}
