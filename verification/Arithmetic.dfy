/** Division facts used where addresses are cut into blocks, words and slots. */
module Arithmetic {

  lemma MulMono(a: int, b: int, w: nat)
    requires a <= b
    ensures a * w <= b * w
  {
  }

  /** Quotient and remainder are determined by the division equation. */
  lemma DivModUnique(x: int, w: int, q: int, r: int)
    requires 0 <= r < w && x == q * w + r
    ensures x / w == q && x % w == r
  {
    var k := x / w;
    assert x == k * w + x % w;
    if k < q {
      MulMono(k + 1, q, w);
    } else if q < k {
      MulMono(q + 1, k, w);
    }
  }

  lemma DivBound(x: nat, n: nat, w: nat)
    requires 0 < w && x < n * w
    ensures x / w < n
  {
    if n <= x / w { MulMono(n, x / w, w); }
  }

  /** Adding d does not leave the group of w that x is in. */
  lemma SameGroup(x: nat, d: nat, w: nat)
    requires 0 < w && x % w + d < w
    ensures (x + d) / w == x / w && (x + d) % w == x % w + d
  {
    DivModUnique(x + d, w, x / w, x % w + d);
  }
}
