/** Facts about products and quotients that several modules need. */
module Arithmetic {
  function Min(a: int, b: int): int { if a < b then a else b }

  function Max(a: int, b: int): int { if a > b then a else b }

  lemma {:induction false} MulLe(a: nat, b: nat, c: nat)
    requires a <= b
    ensures a * c <= b * c
  {
  }

  lemma {:induction false} MulLt(a: nat, b: nat, c: nat)
    requires a < b && c > 0
    ensures a * c < b * c
  {
  }

  lemma {:induction false} MulGroup(a: int, b: int, c: int)
    ensures (a * b) * c == a * (b * c)
  {
  }

  lemma {:induction false} ModOfSmall(v: int, d: int)
    requires 0 <= v < d
    ensures v % d == v
  {
  }

  lemma {:induction false} Divides(n: nat, d: nat, q: nat, r: nat)
    requires n == d * q + r && r < d
    ensures n / d == q && n % d == r
  {
    if n / d < q {
      MulLe(n / d + 1, q, d);
    } else if n / d > q {
      MulLe(q + 1, n / d, d);
    }
  }
}
