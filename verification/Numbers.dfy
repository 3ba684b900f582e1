/** Arithmetic shared by the modules, and division facts the solver does not find by itself. */
module Numbers {
  function Later(a: nat, b: nat): nat {
    if a < b then b else a
  }

  lemma TimesMonotone(a: int, b: int, d: nat)
    requires a <= b
    ensures a * d <= b * d
  {
    assert (b - a) * d >= 0;
  }

  lemma TimesStrict(a: int, b: int, d: nat)
    requires a < b
    ensures a * d + d <= b * d
  {
    TimesMonotone(a + 1, b, d);
    assert (a + 1) * d == a * d + d;
  }

  lemma QuotientMonotone(a: nat, b: nat, d: nat)
    requires d > 0 && a <= b
    ensures a / d <= b / d
  {
    var p, q := a / d, b / d;
    assert q < p ==> q * d + d <= p * d by { if q < p { TimesStrict(q, p, d); } }
  }

  /** Quotient and remainder are the only ones. */
  lemma DivideUnique(x: nat, d: nat, q: nat, r: nat)
    requires d > 0 && x == q * d + r && r < d
    ensures x / d == q && x % d == r
  {
    var p := x / d;
    assert p * d <= x < p * d + d;
    assert p < q ==> p * d + d <= q * d by { if p < q { TimesStrict(p, q, d); } }
    assert q < p ==> q * d + d <= p * d by { if q < p { TimesStrict(q, p, d); } }
  }
}
