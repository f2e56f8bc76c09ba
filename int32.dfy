/**
 * Kotlin's `Int`: 32-bit two's complement, where `+` and `-` wrap around
 * silently. The counters and limits of the quota and vault models are
 * `Int`s in the source, so their sums are taken through `Wrap`.
 */
module Int32 {
  const Min: int := -0x8000_0000
  const Max: int := 0x7fff_ffff
  const Modulus: int := 0x1_0000_0000

  predicate InRange(x: int)
  {
    Min <= x <= Max
  }

  /** The `Int` that the mathematical value `x` wraps to. */
  function Wrap(x: int): (r: int)
    ensures InRange(r)
    ensures (x - r) % Modulus == 0
    ensures InRange(x) ==> r == x
  {
    (x - Min) % Modulus + Min
  }

  /** Two `Int`s that differ by less than the modulus do not wrap to the same value. */
  lemma WrapShifts(x: int, d: int)
    requires InRange(x) && d != 0 && -Modulus < d < Modulus
    ensures Wrap(x + d) != x
  {
    assert (x + d - Wrap(x + d)) % Modulus == 0;
  }
}
