// The facts about integer division that the percentages need.
module Quotients {

  lemma MultiplyMonotone(x: nat, y: nat, n: nat)
    requires x <= y
    ensures x * n <= y * n
  {
  }

  lemma QuotientBelow(m: nat, n: nat, k: nat)
    requires 0 < n
    ensures 0 <= m / n
    ensures m / n < k <==> m < k * n
  {
    var q := m / n;
    assert q * n <= m < q * n + n;
    if q < k {
      MultiplyMonotone(q + 1, k, n);
    } else {
      MultiplyMonotone(k, q, n);
    }
  }
}
