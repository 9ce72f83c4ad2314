/** Quotients of natural numbers, and dividing twice. */
module Division {

  lemma DivBounds(x: int, d: int)
    requires d > 0
    ensures d * (x / d) <= x < d * (x / d) + d
  {
  }

  lemma DivUnique(s: nat, d: nat, u: nat, r: nat)
    requires d > 0 && r < d && s == d * u + r
    ensures s / d == u
  {
    var q, w := s / d, s % d;
    assert d * q + w == d * u + r;
    var k := q - u;
    assert d * k == r - w by { assert d * (q - u) == d * q - d * u; }
    if k >= 1 { SmallMultiple(d, k); }
    if k <= -1 { SmallMultiple(d, -k); }
  }

  lemma SmallMultiple(d: nat, k: nat)
    requires d > 0 && k >= 1
    ensures d * k >= d
  {
    assert d * k == d * (k - 1) + d;
    assert d * (k - 1) >= 0;
  }

  lemma DivDiv(s: nat, a: nat, m: nat)
    requires a > 0 && m > 0
    ensures a * m > 0 && s / a / m == s / (a * m)
  {
    var q, r := s / a, s % a;
    var u, v := q / m, q % m;
    assert s == a * q + r && q == m * u + v;
    DivOfParts(s, a, m, u, v, r);
  }

  lemma DivOfParts(s: nat, a: nat, m: nat, u: nat, v: nat, r: nat)
    requires a > 0 && m > 0 && r < a && v < m && s == a * (m * u + v) + r
    ensures a * m > 0 && s / (a * m) == u
  {
    Regroup(a, m, u, v);
    NestedRemainder(a, m, r, v);
    Positive(a, m);
    DivUnique(s, a * m, u, a * v + r);
  }

  lemma Positive(a: nat, m: nat)
    requires a > 0 && m > 0
    ensures a * m > 0
  {
  }

  lemma Regroup(a: nat, m: nat, u: nat, v: nat)
    ensures a * (m * u + v) == (a * m) * u + a * v
  {
    assert a * (m * u + v) == a * (m * u) + a * v;
    assert a * (m * u) == (a * m) * u;
  }

  lemma NestedRemainder(a: nat, m: nat, r: nat, v: nat)
    requires r < a && v < m
    ensures a * v + r < a * m
  {
    var k := m - 1 - v;
    assert a * m == a * v + a * k + a by {
      assert m == v + k + 1;
    }
    assert a * k >= 0;
  }
}
