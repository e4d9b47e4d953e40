/**
  What the other modules share: machine word sizes, powers of two, quotients and optional values.
 */
module Basics {

  const W32: int := 0x1_0000_0000
  const W64: int := 0x1_0000_0000_0000_0000

  datatype Option<+T> = None | Some(value: T)

  function Pow2(k: nat): (p: int)
    ensures p >= 1
  {
    if k == 0 then 1 else 2 * Pow2(k - 1)
  }

  lemma MulMono(a: int, b: int, c: int)
    requires a <= b && 0 <= c
    ensures a * c <= b * c
  {
  }

  // Quotient and remainder are unique.
  lemma DivUnique(u: int, v: int, q: int, r: int)
    requires v > 0 && u == q * v + r && 0 <= r < v
    ensures q == u / v && r == u % v
  {
    var q', r' := u / v, u % v;
    assert u == q' * v + r';
    assert (q - q') * v == r' - r;
    if q - q' >= 1 {
      MulMono(1, q - q', v);
      assert false;
    }
    if q - q' <= -1 {
      MulMono(q - q', -1, v);
      assert false;
    }
  }
}
