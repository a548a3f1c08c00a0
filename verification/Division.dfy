/** Quotients and remainders. */
module Division {
  lemma SmallMultiple(k: int, q: int, d: int)
    requires d == k * q && -q < d < q
    ensures k == 0
  {
    if k > 0 { MulGrows(k, q); }
    if k < 0 { MulGrows(-k, q); }
  }

  lemma MulGrows(k: int, q: int)
    requires k >= 1 && q >= 0
    ensures k * q >= q && -k * q <= -q
  {
  }

  /** Quotient and remainder are determined by their sum. */
  lemma Euclid(x: nat, r: nat, q: nat, m: nat)
    requires r < q && x == r + q * m
    ensures x % q == r && x / q == m
  {
    assert x == q * (x / q) + x % q;
    assert (m - x / q) * q == q * m - q * (x / q);
    SmallMultiple(m - x / q, q, x % q - r);
  }

  lemma ModApart(a: nat, b: nat, q: nat)
    requires a < b < a + q
    ensures a % q != b % q
  {
    assert a == q * (a / q) + a % q && b == q * (b / q) + b % q;
    assert (b / q - a / q) * q == q * (b / q) - q * (a / q);
    if a % q == b % q { SmallMultiple(b / q - a / q, q, b - a); }
  }

  lemma ModShift(a: nat, q: nat)
    requires q > 0
    ensures (a + q) % q == a % q
  {
    assert a == q * (a / q) + a % q;
    assert q * (a / q + 1) == q * (a / q) + q;
    Euclid(a + q, a % q, q, a / q + 1);
  }

  lemma MulMonotone(x: int, y: int, q: nat)
    requires x <= y
    ensures x * q <= y * q
  {
    MulNatural(y - x, q);
    assert (y - x) * q == y * q - x * q;
  }

  lemma MulNatural(x: nat, q: nat)
    ensures x * q >= 0
  {
  }

  lemma Floor(x: nat, q: nat)
    requires q > 0
    ensures (x / q) * q <= x < (x / q) * q + q && (x / q) * q + x % q == x
  {
    assert x == q * (x / q) + x % q;
    assert q * (x / q) == (x / q) * q;
  }

  lemma MulCancel(x: int, y: int, q: nat)
    requires x * q < (y + 1) * q
    ensures x <= y
  {
    if x > y { MulMonotone(y + 1, x, q); }
  }

  lemma DivMonotone(a: nat, b: nat, q: nat)
    requires a <= b && q > 0
    ensures a / q <= b / q
  {
    Floor(a, q);
    Floor(b, q);
    assert (b / q + 1) * q == (b / q) * q + q;
    MulCancel(a / q, b / q, q);
  }

  /** A quotient drops by at most as much as the dividend. */
  lemma DivDrop(a: nat, d: nat, q: nat)
    requires d <= a && q > 0
    ensures a / q <= (a - d) / q + d
  {
    Floor(a, q);
    Floor(a - d, q);
    var p := (a - d) / q;
    assert (p + d + 1) * q == p * q + d * q + q;
    MulGrowsBy(d, q);
    MulCancel(a / q, p + d, q);
  }

  lemma MulGrowsBy(d: nat, q: nat)
    requires q > 0
    ensures d * q >= d
  {
    MulNatural(d, q - 1);
    assert d * q == d * (q - 1) + d;
  }

  /** A common factor cancels. */
  lemma DivCancels(a: nat, s: nat, f: nat)
    requires s > 0 && f > 0
    ensures s * f > 0 && (a * f) / (s * f) == a / s
  {
    var q, r := a / s, a % s;
    Floor(a, s);
    MulMonotone(1, s, f);
    MulMonotone(r + 1, s, f);
    assert (r + 1) * f == r * f + f;
    assert a * f == (q * s + r) * f == r * f + (s * f) * q;
    Euclid(a * f, r * f, s * f, q);
  }
}
