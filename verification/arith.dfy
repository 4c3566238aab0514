/** Facts about multiplication the solver does not find by itself. */
module Arith {
  lemma MulMonotone(a: nat, b: nat, w: nat)
    requires a <= b
    ensures a * w <= b * w
  {
    assert b * w == a * w + (b - a) * w;
  }

  /** Block i of width w ends inside n blocks when i < n. */
  lemma BlockFits(i: nat, n: nat, w: nat)
    requires i < n
    ensures i * w + w <= n * w
  {
    MulMonotone(i + 1, n, w);
    assert (i + 1) * w == i * w + w;
  }

  /** One more block adds w entries. */
  lemma MulSucc(n: nat, w: nat)
    ensures (n + 1) * w == n * w + w
  {
  }
}
