/** Quotients by their bounds. */
module Division {

  lemma Quotient(x: nat, c: nat)
    requires c > 0
    ensures c * (x / c) <= x < c * (x / c) + c
  {
  }

  lemma SmallMultiple(c: int, k: int)
    requires -c < c * k < c
    ensures k == 0
  {
  }

  lemma QuotientIs(x: nat, c: nat, q: nat)
    requires c > 0 && c * q <= x < c * q + c
    ensures x / c == q
  {
    Quotient(x, c);
    assert c * (x / c - q) == c * (x / c) - c * q;
    SmallMultiple(c, x / c - q);
  }

  /** Dividing by 256 and then by `n` is dividing by both at once. */
  lemma DivideAgain(x: nat, n: nat)
    requires n > 0
    ensures x / 256 / n == x / (256 * n)
  {
    var q := x / 256;
    var p := q / n;
    Quotient(q, n);
    assert 256 * (n * p) == 256 * n * p;
    QuotientIs(x, 256 * n, p);
  }
}
