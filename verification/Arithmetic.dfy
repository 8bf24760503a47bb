/** 64-bit words, and the few facts on products and quotients that the clock and the stack
    sizes rest on. */
module Arithmetic {

  const WIDTH: nat := 0x1_0000_0000_0000_0000

  /** A 64-bit unsigned integer. */
  type word = n: nat | n < WIDTH

  function Wrap(x: int): (w: word)
    ensures 0 <= x < WIDTH ==> w == x
  {
    x % WIDTH
  }

  /** The next capacity of an array that doubles, starting at `first`. */
  function Grown(cap: nat, first: nat): nat {
    if cap == 0 then first else cap * 2
  }

  lemma ProductMonotone(a: nat, b: nat, c: nat)
    requires a <= b
    ensures a * c <= b * c
  {
  }

  lemma {:induction false} PairUnique(p: nat, s: nat, q: nat, r: nat, d: nat)
    requires s < d && r < d && p * d + s == q * d + r
    ensures p == q && s == r
  {
    if p < q {
      ProductMonotone(p + 1, q, d);
    } else if q < p {
      ProductMonotone(q + 1, p, d);
    }
  }

  lemma Divide(a: nat, d: nat)
    requires d > 0
    ensures a == a / d * d + a % d && a % d < d
  {
  }

  lemma QuotientUnique(a: nat, q: nat, r: nat, d: nat)
    requires r < d && a == q * d + r
    ensures a / d == q && a % d == r
  {
    Divide(a, d);
    PairUnique(a / d, a % d, q, r, d);
  }

  lemma QuotientOfSum(k: nat, x: nat, d: nat)
    requires d > 0
    ensures (k * d + x) / d == k + x / d && (k * d + x) % d == x % d
  {
    Divide(x, d);
    assert k * d + x == (k + x / d) * d + x % d;
    QuotientUnique(k * d + x, k + x / d, x % d, d);
  }

  lemma QuotientMonotone(a: nat, b: nat, d: nat)
    requires d > 0 && a <= b
    ensures a / d <= b / d
  {
    Divide(a, d);
    Divide(b, d);
    if b / d < a / d {
      ProductMonotone(b / d + 1, a / d, d);
    }
  }

  lemma MultipleMod(q: nat, d: nat)
    requires d > 0
    ensures q * d % d == 0
  {
    QuotientUnique(q * d, q, 0, d);
  }
}
