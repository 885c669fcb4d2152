/** Arithmetic shared by the contracts that round. */
module Rounding {

  function Pow(b: nat, n: nat): (p: nat)
    ensures b > 0 ==> p > 0
  {
    if n == 0 then 1 else b * Pow(b, n - 1)
  }

  lemma Cancel(a: int, b: int, c: int)
    requires c > 0 && a * c <= b * c
    ensures a <= b
  {
  }

  lemma Scale(a: int, b: int, c: nat)
    requires a <= b
    ensures a * c <= b * c
  {
  }

  lemma CancelStrict(a: int, b: int, c: int)
    requires c > 0 && a * c < b * c
    ensures a < b
  {
  }

  // The rounded-down quotient of a product, as bounds on the product.
  lemma FloorBounds(x: nat, y: nat, d: nat) returns (q: nat)
    requires d > 0
    ensures q == x * y / d
    ensures q * d <= x * y < (q + 1) * d
  {
    q := x * y / d;
  }

  lemma QuotientUnique(x: nat, d: nat, q: nat)
    requires d > 0 && q * d <= x < (q + 1) * d
    ensures x / d == q
  {
    var p := FloorBounds(x, 1, d);
    CancelStrict(q, p + 1, d);
    CancelStrict(p, q + 1, d);
  }

  lemma Regroup(a: int, b: int, c: int)
    ensures a * b * c == a * (c * b)
  {
  }

  lemma DivideTwice(x: nat, a: nat, b: nat)
    requires a > 0 && b > 0
    ensures a * b > 0 && x / a / b == x / (a * b)
  {
    var q := FloorBounds(x, 1, a);
    var r := FloorBounds(q, 1, b);
    Scale(r * b, q, a);
    Scale(q + 1, (r + 1) * b, a);
    Regroup(r, b, a);
    Regroup(r + 1, b, a);
    Scale(1, b, a);
    QuotientUnique(x, a * b, r);
  }

  // A comparison of two quotients survives a step to a larger second quotient:
  // X * A / S >= D stays true when A / S grows to A' / S'.
  lemma WorthGrows(X: nat, D: nat, A: nat, S: nat, A': nat, S': nat)
    requires 0 < S && 0 < S'
    requires X * A >= D * S && A' * S >= A * S'
    ensures X * A' >= D * S'
  {
  }
}
