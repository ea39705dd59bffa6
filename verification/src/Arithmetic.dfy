/** Products, quotients and remainders. */
module Arithmetic {

  function Min(a: nat, b: nat): nat
  {
    if a < b then a else b
  }

  function Max(a: nat, b: nat): nat
  {
    if a < b then b else a
  }

  /** A multiple of `m` strictly between `-m` and `m` is zero. */
  lemma SmallMultiple(m: int, d: int)
    requires m >= 1
    ensures -m < m * d < m ==> d == 0
  {
    assert d >= 1 ==> m * d >= m;
    assert d <= -1 ==> m * d <= -m;
  }

  lemma ModUnique(a: int, m: int, q: int, r: int)
    requires m >= 1 && a == m * q + r && 0 <= r < m
    ensures a % m == r && a / m == q
  {
    var q' := a / m;
    assert a == m * q' + a % m;
    assert m * (q - q') == a % m - r;
    SmallMultiple(m, q - q');
  }

  lemma ModOfMod(a: int, m: int, n: int)
    requires m >= 1 && n >= 1
    ensures m * n >= 1
    ensures (a % (m * n)) % m == a % m
  {
    assert m * n >= m;
    var q, r := a / (m * n), a % (m * n);
    var q', r' := r / m, r % m;
    assert a == (m * n) * q + r;
    assert r == m * q' + r';
    assert (m * n) * q == m * (n * q);
    assert a == m * (n * q + q') + r';
    ModUnique(a, m, n * q + q', r');
  }

  lemma Distribute(a: int, b: int, c: int)
    ensures a * (b + c) == a * b + a * c
  {
  }

  lemma Associate(a: int, b: int, c: int)
    ensures a * (b * c) == (a * b) * c
  {
  }

  lemma MulMonotone(a: int, b: int, c: int)
    requires a >= 0 && b <= c
    ensures a * b <= a * c
  {
    Distribute(a, b, c - b);
    assert a * (c - b) >= 0;
  }

  lemma Regroup(p: int, s: int, e: int, q: int, r: int, u: int, v: int)
    requires p == s * q + r && q == e * u + v && 0 <= r < s && 0 <= v < e
    ensures p == (e * s) * u + (s * v + r)
    ensures 0 <= s * v + r < e * s
  {
    Distribute(s, e * u, v);
    Associate(s, e, u);
    assert s * e == e * s;
    MulMonotone(s, 0, v);
    MulMonotone(s, v, e - 1);
    Distribute(s, e, -1);
  }

  lemma DivDiv(p: int, s: int, e: int)
    requires s >= 1 && e >= 1
    ensures e * s >= 1
    ensures p / (e * s) == (p / s) / e
  {
    assert e * s >= s;
    var q, r := p / s, p % s;
    var u, v := q / e, q % e;
    Regroup(p, s, e, q, r, u, v);
    ModUnique(p, e * s, u, s * v + r);
  }
}
