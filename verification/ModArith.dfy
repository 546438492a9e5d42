/** Products, quotients and remainders for the schedulers. */
module ModArith {
  lemma MulBounds(n: nat, d: int)
    ensures d >= 1 ==> n * d >= n
    ensures d <= -1 ==> n * d + n <= 0
    ensures d >= 0 ==> n * d >= 0
  {}

  lemma MulMinus(n: int, a: int, b: int)
    ensures n * a - n * b == n * (a - b)
  {}

  /** Quotient and remainder are the only ones there are. */
  lemma ModUnique(a: nat, n: nat, q: int, r: nat)
    requires n > 0 && r < n && a == n * q + r
    ensures a / n == q && a % n == r
  {
    MulMinus(n, a / n, q);
    MulBounds(n, a / n - q);
  }

  lemma ModAdd(a: nat, n: nat)
    requires n > 0
    ensures (a + n) % n == a % n
  {
    MulMinus(n, a / n + 1, a / n);
    ModUnique(a + n, n, a / n + 1, a % n);
  }

  lemma SameResidueIff(a: nat, b: nat, n: nat)
    requires n > 0 && a <= b
    ensures a % n == b % n <==> (b - a) % n == 0
  {
    var d := b - a;
    if a % n == b % n {
      MulMinus(n, b / n, a / n);
      ModUnique(d, n, b / n - a / n, 0);
    }
    if d % n == 0 {
      MulMinus(n, a / n + d / n, d / n);
      ModUnique(b, n, a / n + d / n, a % n);
    }
  }

  lemma DivMono(a: nat, b: nat, c: nat)
    requires c > 0 && a <= b
    ensures a / c <= b / c
  {
    MulMinus(c, a / c, b / c);
    MulBounds(c, a / c - b / c);
  }

  lemma QuotientIsSmaller(k: nat, c: nat)
    requires c > 0
    ensures 0 <= k / c <= k
  {
    MulBounds(k / c, c);
  }

  lemma MulMono(a: nat, b: nat, c: nat, d: nat)
    requires a <= c && b <= d
    ensures a * b <= c * d
  {}

  lemma MulAssoc(a: int, b: int, c: int)
    ensures a * (b * c) == (a * b) * c
  {}

  lemma MulDistributes(a: int, b: int, c: int)
    ensures a * (b + c) == a * b + a * c
    ensures a * (b - c) == a * b - a * c
  {}

  lemma MulSwap(a: int, b: int, c: int)
    ensures a * (b * c) == b * (a * c)
  {
    MulAssoc(a, b, c);
    MulAssoc(b, a, c);
  }

  lemma MulLe(a: nat, b: int, c: int)
    requires b <= c
    ensures a * b <= a * c
  {}

  lemma MulCancel(a: nat, b: int, c: int)
    requires a > 0 && a * b == a * c
    ensures b == c
  {
    MulDistributes(a, b, c);
  }
}
