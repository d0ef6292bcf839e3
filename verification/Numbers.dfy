/** Small numeric notions that several modules share. */
module Numbers {
  type Byte = b: int | 0 <= b < 256

  function Abs(r: real): real {
    if r < 0.0 then -r else r
  }

  /** Into the range from 0 to 1. */
  function Clamp(r: real): real {
    if r < 0.0 then 0.0 else if r > 1.0 then 1.0 else r
  }

  function Pow2(k: nat): (r: nat)
    ensures r >= 1
  {
    if k == 0 then 1 else 2 * Pow2(k - 1)
  }

  predicate AtMost(a: int, b: int) {
    a <= b
  }
}
