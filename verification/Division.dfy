/** Facts about division that the solver does not find by itself. */
module Division {

  lemma {:induction false} TimesAtLeast(m: nat, k: int)
    requires k > 0
    ensures m * k >= m
    decreases k
  {
    if k > 1 {
      TimesAtLeast(m, k - 1);
      assert m * k == m * (k - 1) + m;
    }
  }

  lemma Unique(v: int, m: nat, q: int, r: int)
    requires m > 0 && v == m * q + r && 0 <= r < m
    ensures v % m == r && v / m == q
  {
    var q', r' := v / m, v % m;
    assert m * (q - q') == m * q - m * q' == r' - r;
    assert m * (q' - q) == r - r';
    if q > q' {
      TimesAtLeast(m, q - q');
    } else if q < q' {
      TimesAtLeast(m, q' - q);
    }
  }

  lemma RoundedDown(v: int, m: nat)
    requires m > 0
    ensures (v - v % m) % m == 0 && v - m < v - v % m <= v
  {
    Unique(v - v % m, m, v / m, 0);
  }

  lemma Distributes(b: int, p: int, q: int, r: int)
    ensures b * (p * q + r) == (b * p) * q + b * r
  {
    assert b * (p * q + r) == b * (p * q) + b * r;
  }

  lemma DigitBound(b: nat, p: nat, r: nat, s: nat)
    requires r < p && s < b
    ensures 0 <= b * r + s < b * p
  {
    TimesAtLeast(b, p - r);
    assert b * (p - r) == b * p - b * r;
    if r > 0 { TimesAtLeast(b, r); }
  }

  /** Dividing by a product is dividing by one factor and then by the other. */
  lemma ByProduct(v: int, b: nat, p: nat)
    requires b > 0 && p > 0
    ensures b * p > 0
    ensures v % (b * p) == v % b + b * ((v / b) % p)
    ensures v / (b * p) == (v / b) / p
  {
    var q, r, s := (v / b) / p, (v / b) % p, v % b;
    assert v == b * (v / b) + s && v / b == p * q + r;
    Distributes(b, p, q, r);
    DigitBound(b, p, r, s);
    Unique(v, b * p, q, b * r + s);
  }
}
