/** Division facts behind shift registers and wrap-around counters. */
module Arith {

  lemma MulMonotone(a: int, b: int, c: nat)
    requires a <= b
    ensures a * c <= b * c
  {
  }

  lemma DivMod(x: int, m: int)
    requires m > 0
    ensures x == (x / m) * m + x % m && 0 <= x % m < m
  {
  }

  lemma DivModUnique(x: int, m: int, q: int, r: int)
    requires 0 <= r < m && x == q * m + r
    ensures x / m == q && x % m == r
  {
    var q', r' := x / m, x % m;
    DivMod(x, m);
    assert (q + 1) * m == q * m + m && (q' + 1) * m == q' * m + m;
    if q' > q { MulMonotone(q + 1, q', m); }
    if q' < q { MulMonotone(q' + 1, q, m); }
  }

  lemma MulBit(v: nat, p: nat)
    requires v < 2
    ensures v * p == if v == 0 then 0 else p
  {
  }
}
