/** Quotients and remainders. */
module Division {
  /** Counting up by one, modulo `n`. */
  lemma ModStep(k: nat, n: nat)
    requires k > 0 && n > 0
    ensures k % n == if (k - 1) % n + 1 == n then 0 else (k - 1) % n + 1
  {
    var q, r := (k - 1) / n, (k - 1) % n;
    assert k - 1 == q * n + r;
    if r + 1 == n {
      assert (q + 1) * n == q * n + n;
      ModUnique(k, n, q + 1, 0);
    } else {
      ModUnique(k, n, q, r + 1);
    }
  }

  lemma ModUnique(k: int, n: nat, q: int, r: nat)
    requires r < n && k == q * n + r
    ensures k % n == r
  {
    var q', r' := k / n, k % n;
    assert k == q' * n + r' && r' < n;
    if q' > q {
      Gap(q', q, n);
    } else if q' < q {
      Gap(q, q', n);
    }
  }

  lemma Gap(a: int, b: int, n: nat)
    requires a > b
    ensures a * n >= b * n + n
  {
    var d := a - b - 1;
    assert d * n >= 0;
    assert a * n == b * n + n + d * n;
  }

  /** Reducing a factor first changes nothing. */
  lemma ModFactor(a: int, k: int, x: int, n: nat)
    requires n > 0
    ensures (a - k * (x % n)) % n == (a - k * x) % n
  {
    var q, r := x / n, x % n;
    assert x == q * n + r;
    var b := a - k * x;
    assert k * x == (k * q) * n + k * r by {
      assert k * (q * n) == (k * q) * n;
    }
    ModShift(b, k * q, n);
  }

  lemma ModShift(b: int, e: int, n: nat)
    requires n > 0
    ensures (b + e * n) % n == b % n
  {
    assert b == (b / n) * n + b % n;
    assert b + e * n == (b / n + e) * n + b % n;
    ModUnique(b + e * n, n, b / n + e, b % n);
  }
}
