/** Facts about multiplication, division and remainder. */
module Arithmetic {

  /** Rounded-up division. */
  function CeilDiv(a: nat, b: nat): nat
    requires b > 0
  {
    (a + b - 1) / b
  }

  function Max(a: int, b: int): int { if a > b then a else b }

  lemma {:induction false} MulStep(m: nat, j: nat, k: nat)
    requires j < k
    ensures m * j + m <= m * k
  {
    if k == j + 1 {
      assert m * k == m * j + m;
    } else {
      MulStep(m, j, k - 1);
      assert m * k == m * (k - 1) + m;
    }
  }

  lemma DivMod(x: nat, t: nat)
    requires t > 0
    ensures x / t >= 0 && t * (x / t) <= x < t * (x / t) + t
  {
  }

  lemma DivBetween(x: nat, t: nat, q: nat)
    requires t > 0 && t * q <= x < t * q + t
    ensures x / t == q
  {
    var d := x / t;
    DivMod(x, t);
    if d < q { MulStep(t, d, q); }
    if d > q { MulStep(t, q, d); }
  }

  /** A larger multiple is larger by at least one step. */
  lemma MultiplesApart(t: nat, x: nat, y: nat)
    requires t > 0 && x % t == 0 && y % t == 0 && x < y
    ensures x + t <= y
  {
    var j, k := x / t, y / t;
    assert x == t * j && y == t * k;
    if j < k {
      MulStep(t, j, k);
    } else if k < j {
      MulStep(t, k, j);
    }
  }

  lemma CeilDivMonotone(a: nat, b: nat, t: nat)
    requires t > 0 && a <= b
    ensures CeilDiv(a, t) <= CeilDiv(b, t)
  {
    var x, y := a + t - 1, b + t - 1;
    DivMod(x, t);
    DivMod(y, t);
    if x / t > y / t { MulStep(t, y / t, x / t); }
  }

  lemma ModUnique(x: nat, n: nat, q: nat, r: nat)
    requires n > 0 && r < n && x == n * q + r
    ensures x % n == r
  {
    DivBetween(x, n, q);
  }

  lemma ModPlus(x: nat, n: nat)
    requires n > 0
    ensures (x + n) % n == x % n
  {
    var q, r := x / n, x % n;
    assert x == n * q + r;
    assert x + n == n * (q + 1) + r;
    ModUnique(x + n, n, q + 1, r);
  }
}
