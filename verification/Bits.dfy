/**
  Powers of two, and masks as remainders.
 */
module Bits {

  predicate PowerOfTwo(n: nat) {
    n == 1 || (n > 1 && n % 2 == 0 && PowerOfTwo(n / 2))
  }

  function Pow2(k: nat): (r: nat)
    ensures r >= 1
  {
    if k == 0 then 1 else 2 * Pow2(k - 1)
  }

  /** Two powers of two less than a factor of two apart are the same. */
  lemma {:induction false} SamePower(a: nat, b: nat)
    requires PowerOfTwo(a) && PowerOfTwo(b) && a <= b < 2 * a
    ensures a == b
  {
    if a > 1 {
      SamePower(a / 2, b / 2);
    }
  }

  lemma {:induction false} PowerTimes(n: nat, k: nat)
    requires PowerOfTwo(n)
    ensures PowerOfTwo(n * Pow2(k)) && n * Pow2(k) >= (if k == 0 then n else 2 * n)
  {
    hide PowerOfTwo;
    if k > 0 {
      PowerTimes(n, k - 1);
      TwiceTimes(n, Pow2(k - 1));
      PowerTwice(n * Pow2(k - 1));
    }
  }

  lemma TwiceTimes(n: nat, x: nat)
    ensures n * (2 * x) == 2 * (n * x)
  {
  }

  lemma PowerTwice(n: nat)
    requires PowerOfTwo(n)
    ensures PowerOfTwo(2 * n)
  {
    assert 2 * n / 2 == n;
  }

  function BitAnd(x: nat, y: nat): nat
    decreases x
  {
    if x == 0 || y == 0 then 0 else (x % 2) * (y % 2) + 2 * BitAnd(x / 2, y / 2)
  }

  lemma {:induction false} MulStep(d: nat, a: nat, b: nat)
    requires a < b
    ensures d * a + d <= d * b
  {
    if a + 1 < b {
      MulStep(d, a, b - 1);
    }
  }

  lemma ModUnique(x: nat, d: nat, q: nat, r: nat)
    requires d > 0 && x == d * q + r && r < d
    ensures x % d == r
  {
    var q', r' := x / d, x % d;
    assert x == d * q' + r';
    if q' < q {
      MulStep(d, q', q);
    } else if q < q' {
      MulStep(d, q, q');
    }
  }

  lemma DoubleMod(x: nat, m: nat)
    requires m > 0
    ensures x % (2 * m) == 2 * (x / 2 % m) + x % 2
  {
    var h := x / 2;
    var q, r := h / m, h % m;
    assert h == m * q + r;
    assert x == 2 * h + x % 2;
    assert 2 * (m * q) == (2 * m) * q;
    ModUnique(x, 2 * m, q, 2 * r + x % 2);
  }

  /** Masking with a power of two less one is the remainder. */
  lemma {:induction false} MaskIsMod(x: nat, n: nat)
    requires PowerOfTwo(n)
    ensures BitAnd(x, n - 1) == x % n
    decreases n
  {
    if n > 1 {
      var m := n / 2;
      MaskIsMod(x / 2, m);
      DoubleMod(x, m);
      assert n == 2 * m && (n - 1) % 2 == 1 && (n - 1) / 2 == m - 1;
    }
  }
}
