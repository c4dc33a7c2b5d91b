/** Facts about division that the readers and writers of numbers share. */
module Division {

  lemma DivisionIs(x: nat, a: nat)
    requires a > 0
    ensures x == x / a * a + x % a
  {
  }

  lemma AtLeastOnce(k: nat, a: nat)
    requires k > 0
    ensures k * a >= a
  {
    assert k * a == (k - 1) * a + a;
  }

  lemma Spread(a: nat, q: nat, q': nat)
    requires q < q'
    ensures q * a + a <= q' * a
  {
    var k: nat := q' - q;
    assert q' * a == (q + k) * a == q * a + k * a;
    AtLeastOnce(k, a);
  }

  lemma QuotientIs(x: nat, a: nat, q: nat, r: nat)
    requires a > 0 && x == q * a + r && r < a
    ensures x / a == q
  {
    DivisionIs(x, a);
    var q' := x / a;
    if q < q' { Spread(a, q, q'); } else if q' < q { Spread(a, q', q); }
  }

  /** Dividing by two numbers one after the other is dividing by their product. */
  lemma TwoDivisions(n: nat, b: nat, p: nat)
    requires b > 0 && p > 0
    ensures b * p > 0 && n / (b * p) == n / b / p
  {
    var y, s := n / b, n % b;
    var q, r := y / p, y % p;
    DivisionIs(n, b);
    DivisionIs(y, p);
    Spread(b, r, p);
    Regroup(n, b, p, q, r, s);
    AtLeastOnce(p, b);
    QuotientIs(n, b * p, q, r * b + s);
  }

  lemma Regroup(n: nat, b: nat, p: nat, q: nat, r: nat, s: nat)
    requires n == (q * p + r) * b + s
    ensures n == q * (b * p) + (r * b + s)
  {
  }
}
