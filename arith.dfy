/** Small facts about multiplication and division used by the counting proofs. */
module Arith {
  lemma MulStep(i: nat, m: nat)
    requires i > 0
    ensures i * m == (i - 1) * m + m
  {}
  lemma MulMonotone(a: nat, b: nat, m: nat)
    requires a <= b
    ensures a * m <= b * m
  {}
  lemma MulBelow(i: nat, r: nat, n: nat, m: nat)
    requires i < n && r < m
    ensures i * m + r < n * m
  {
    MulMonotone(i + 1, n, m);
  }
  /** `MulMonotone` as an implication, so that it can be used without a case split. */
  lemma MulLe(a: nat, b: nat, m: nat)
    ensures a <= b ==> a * m <= b * m
  {
    if a <= b {
      MulMonotone(a, b, m);
    }
  }
  lemma DivSplit(k: nat, n: nat, m: nat)
    requires k < n * m
    ensures m > 0 && k / m < n && k == (k / m) * m + k % m && k % m < m
  {
    assert m > 0;
    MulLe(n, k / m, m);
  }
  lemma DivMonotone(a: nat, b: nat, d: nat)
    requires a <= b && d > 0
    ensures a / d <= b / d
  {
    MulLe(b / d + 1, a / d, d);
    MulStep(b / d + 1, d);
  }
  lemma ScaledBelow(a: nat, d: nat, c: nat)
    requires a < d && c > 0
    ensures (a * c) / d < c
  {
    MulMonotone(a + 1, d, c);
    MulStep(a + 1, c);
    assert a * c < c * d;
    DivSplit(a * c, c, d);
  }
  lemma ScaledSelf(d: nat, c: nat)
    requires d > 0
    ensures (d * c) / d == c
  {
    var q := (d * c) / d;
    var r := (d * c) % d;
    assert c * d == q * d + r && 0 <= r < d;
    MulLe(q + 1, c, d);
    MulStep(q + 1, d);
    MulLe(c + 1, q, d);
    MulStep(c + 1, d);
  }
}
