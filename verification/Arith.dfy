/** Integer facts shared by the models. */
module Arith {

  function Abs(a: int): nat { if a < 0 then -a else a }

  function Min(a: int, b: int): int { if a < b then a else b }

  function Max(a: int, b: int): int { if a < b then b else a }

  lemma MulGap(a: int, b: int, m: nat)
    requires a < b
    ensures a * m + m <= b * m
  {
    assert (a + 1) * m == a * m + m;
  }

  lemma DivModUnique(a: int, m: int, q: int, r: int)
    requires a == q * m + r && 0 <= r < m
    ensures a / m == q && a % m == r
  {
    var d := a / m;
    assert a == d * m + a % m;
    if d < q {
      MulGap(d, q, m);
    } else if q < d {
      MulGap(q, d, m);
    }
  }
}
