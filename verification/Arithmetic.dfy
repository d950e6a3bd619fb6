/** Remainders that the solver does not find by itself.

    The quotient is given, so that nothing is left but linear arithmetic and one
    product. */
module Arithmetic {
  lemma MulApart(m: int, k: int)
    requires m > 0
    ensures k >= 1 ==> m * k >= m
    ensures k <= -1 ==> m * k <= -m
  {
  }

  lemma ModIs(v: int, m: int, k: int, r: int)
    requires m > 0 && 0 <= r < m && v == m * k + r
    ensures v % m == r
  {
    var d, e := v / m, v % m;
    assert m * (k - d) == e - r;
    MulApart(m, k - d);
  }

  lemma ModNext(k: nat, m: nat)
    requires m > 0
    ensures (k + 1) % m == if k % m + 1 == m then 0 else k % m + 1
  {
    var q, r := k / m, k % m;
    assert k == m * q + r;
    if r + 1 == m {
      assert k + 1 == m * (q + 1) + 0;
      ModIs(k + 1, m, q + 1, 0);
    } else {
      ModIs(k + 1, m, q, r + 1);
    }
  }

  lemma DivIs(v: int, m: int, k: int, r: int)
    requires m > 0 && 0 <= r < m && v == m * k + r
    ensures v / m == k
  {
    var d, e := v / m, v % m;
    assert m * (k - d) == e - r;
    MulApart(m, k - d);
  }
}
