/** Remainders, away from the proofs that use them. */
module Arithmetic {

  lemma MultipleIsFar(m: int, d: int)
    requires m > 0 && d != 0
    ensures m * d >= m || m * d <= -m
  {
    if d > 0 {
      assert m * (d - 1) >= 0;
    } else {
      assert m * (-d - 1) >= 0;
    }
  }

  lemma ModUnique(n: nat, m: nat, q: int, r: nat)
    requires m > 0 && r < m && n == m * q + r
    ensures n % m == r && n / m == q
  {
    var q', r' := n / m, n % m;
    assert n == m * q' + r';
    assert m * (q - q') == r' - r;
    if q != q' {
      MultipleIsFar(m, q - q');
    }
  }

  lemma ModSub(a: nat, b: nat, m: nat)
    requires m > 0 && b <= a && b % m == 0
    ensures (a - b) % m == a % m
  {
    var q := b / m;
    assert b == m * q;
    assert a - b == m * (a / m - q) + a % m;
    ModUnique(a - b, m, a / m - q, a % m);
  }

  lemma ModNext(k: nat, m: nat)
    requires m > 1
    ensures (k + 1) % m == if k % m == m - 1 then 0 else k % m + 1
  {
    var q := k / m;
    assert k == m * q + k % m;
    if k % m == m - 1 {
      assert k + 1 == m * (q + 1) + 0;
      ModUnique(k + 1, m, q + 1, 0);
    } else {
      ModUnique(k + 1, m, q, k % m + 1);
    }
  }

  /** Numbers less than `m` apart have different remainders. */
  lemma ModDistinct(i: nat, j: nat, m: nat)
    requires i < j < i + m
    ensures i % m != j % m
  {
    if i % m == j % m {
      assert j - i == m * (j / m - i / m) by {
        assert i == m * (i / m) + i % m && j == m * (j / m) + j % m;
      }
      if j / m != i / m {
        MultipleIsFar(m, j / m - i / m);
      }
    }
  }
}
