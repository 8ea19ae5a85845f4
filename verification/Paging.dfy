/** include/math.h: minimum, maximum and rounding to a multiple; and the page size used everywhere. */
module Paging {
  const PAGE_SIZE := 4096

  function Min(a: nat, b: nat): nat { if a < b then a else b }

  function Max(a: nat, b: nat): nat { if a < b then b else a }

  function RoundDown(v: nat, n: nat): (r: nat)
    requires n > 0
    ensures r <= v < r + n && r % n == 0
  {
    MultipleBelow(v, n);
    v - v % n
  }

  function RoundUp(v: nat, n: nat): (r: nat)
    requires n > 0
    ensures v <= r < v + n && r % n == 0
  {
    RoundDown(v + n - 1, n)
  }

  function PageDown(a: nat): nat { RoundDown(a, PAGE_SIZE) }

  function PageUp(a: nat): nat { RoundUp(a, PAGE_SIZE) }

  lemma MultipleBelow(v: nat, n: nat)
    requires n > 0
    ensures (v - v % n) % n == 0
  {
    assert v - v % n == n * (v / n) + 0;
    DivModUnique(v / n, 0, n);
  }

  /** Quotient and remainder are the only ones. */
  lemma DivModUnique(q: nat, r: nat, n: nat)
    requires r < n
    ensures (n * q + r) / n == q && (n * q + r) % n == r
  {
    var v := n * q + r;
    assert v == n * (v / n) + v % n;
    if v / n < q {
      MulGap(v / n, q, n);
    } else if q < v / n {
      MulGap(q, v / n, n);
    }
  }

  lemma {:induction false} MulGap(i: nat, j: nat, n: nat)
    requires i < j
    ensures n * i + n <= n * j
    decreases j
  {
    assert n * j == n * (j - 1) + n;
    if i < j - 1 {
      MulGap(i, j - 1, n);
    }
  }

  lemma ModPlusMultiple(x: nat, q: nat, n: nat)
    requires n > 0
    ensures (x + n * q) % n == x % n
  {
    var d := x / n;
    assert n * (d + q) == n * d + n * q;
    DivModUnique(d + q, x % n, n);
  }

  lemma MulAssoc(a: nat, b: nat, c: nat)
    ensures a * b * c == a * (b * c)
  {
  }

  /** Adding multiples of a multiple of n changes nothing modulo n. */
  lemma {:induction false} ModPlusTimes(b: nat, t: nat, i: nat, n: nat)
    requires n > 0 && t % n == 0
    ensures (b + t * i) % n == b % n
  {
    if i > 0 {
      ModPlusTimes(b, t, i - 1, n);
      assert t * i == t * (i - 1) + t;
      ModStep(b + t * (i - 1), t, n);
    }
  }

  lemma ModStep(x: nat, t: nat, n: nat)
    requires n > 0 && t % n == 0
    ensures (x + t) % n == x % n
  {
    ModPlusMultiple(x, t / n, n);
  }
}
