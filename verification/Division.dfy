/** The few facts about rounding that the fee and amount proofs use. */
module Division {

  lemma MonotoneProduct(a: int, b: int, c: nat)
    requires a <= b
    ensures a * c <= b * c && c * a <= c * b
  {
  }

  lemma DistributeDifference(a: int, b: int, c: int)
    ensures (a - b) * c == a * c - b * c && c * (a - b) == c * a - c * b
  {
  }

  /** Rounding down is the upper adjoint of multiplication. */
  lemma FloorAdjoint(n: int, d: int, q: int)
    requires 0 < d
    ensures q <= n / d <==> q * d <= n
  {
    var r := n / d;
    assert r * d <= n < r * d + d;
    if q <= r {
      MonotoneProduct(q, r, d);
    } else {
      MonotoneProduct(r + 1, q, d);
      DistributeDifference(r + 1, 1, d);
    }
  }

  lemma QuotientIs(n: int, d: int, q: int)
    requires 0 < d
    requires q * d <= n < q * d + d
    ensures n / d == q
  {
    FloorAdjoint(n, d, q);
    FloorAdjoint(n, d, q + 1);
    assert (q + 1) * d == q * d + d;
  }

  lemma QuotientBelow(n: int, d: int)
    requires 0 <= n && 0 < d
    ensures 0 <= n / d <= n
  {
    FloorAdjoint(n, d, 0);
    FloorAdjoint(n, d, n + 1);
    MonotoneProduct(1, d, n + 1);
  }

  /** Rounding up is the lower adjoint of multiplication. */
  lemma CeilAdjoint(n: int, d: int, q: int)
    requires 0 < d
    ensures (n + d - 1) / d <= q <==> n <= q * d
  {
    FloorAdjoint(n + d - 1, d, q + 1);
    assert (q + 1) * d == q * d + d;
  }

  lemma RemainderIs(n: int, d: int)
    requires 0 <= n && 0 < d
    ensures n - n % d == d * (n / d) && 0 <= n % d <= n
  {
    QuotientBelow(n, d);
    var r := n / d;
    assert 0 <= r * d;
  }

  lemma WholeQuotient(n: int, d: int)
    requires 0 < d && n % d == 0
    ensures n == n / d * d
  {
  }

  lemma MultipleQuotient(k: int, d: int)
    requires 0 < d
    ensures (k * d) / d == k && (k * d) % d == 0
  {
    QuotientIs(k * d, d, k);
  }

  lemma CancelProduct(a: int, b: int, c: int)
    requires 0 < c
    ensures c * a <= c * b <==> a <= b
  {
    assert a <= b ==> c * a <= c * b;
    assert b + 1 <= a ==> c * (b + 1) <= c * a;
  }

  lemma ScaledFloor(rate: int, m: int, d: int, q: int)
    requires 0 < rate && 0 < d
    ensures q <= m / d <==> q * rate <= (rate * m) / d
  {
    FloorAdjoint(m, d, q);
    FloorAdjoint(rate * m, d, q * rate);
    assert (q * rate) * d == rate * (q * d);
    CancelProduct(q * d, m, rate);
  }

  /** Dividing twice is dividing by the product: dust removal commutes with a rounded-down fee. */
  lemma NestedFloor(rate: int, m: int, d: int)
    requires 0 < rate && 0 < d
    ensures ((rate * m) / d) / rate == m / d
  {
    var q, f := m / d, (rate * m) / d;
    ScaledFloor(rate, m, d, q);
    ScaledFloor(rate, m, d, q + 1);
    FloorAdjoint(f, rate, q);
    FloorAdjoint(f, rate, q + 1);
  }
}
