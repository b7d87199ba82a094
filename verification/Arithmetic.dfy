/** The steps of multiplication that sums over runs and buffers take one at a time. */
module Arithmetic {
  lemma {:induction false} OneMore(n: nat, k: nat)
    ensures (n + 1) * k == n * k + k
  {}

  lemma {:induction false} Monotone(m: nat, n: nat, k: nat)
    requires m <= n
    ensures m * k <= n * k
  {
    assert (n - m) * k >= 0;
  }

  lemma {:induction false} StrictlyMonotone(m: nat, n: nat, k: nat)
    requires k > 0
    ensures m < n <==> m * k < n * k
  {
    if m < n { assert (n - m) * k > 0; } else { Monotone(n, m, k); }
  }
}
