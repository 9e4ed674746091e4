/** Rounding to multiples of an alignment. */
module Alignment {
  function Down(x: int, align: nat): int
    requires align > 0
  {
    x - x % align
  }

  function Up(x: int, align: nat): int
    requires align > 0
  {
    Down(x + align - 1, align)
  }

  lemma MulLe(k: int, q: int, a: nat)
    requires k <= q
    ensures k * a <= q * a
  {
    assert (q - k) * a >= 0;
  }

  lemma MulSucc(k: int, a: nat)
    ensures (k + 1) * a == k * a + a && (k - 1) * a == k * a - a
  {
  }

  /** A product falls between two neighbouring multiples only if it is the lower one. */
  lemma Squeeze(k: int, q: int, a: nat, x: int)
    requires a > 0 && q * a <= x < q * a + a
    ensures k * a <= x ==> k <= q && k * a <= q * a
    ensures k * a >= x ==> q <= k && q * a <= k * a
  {
    MulSucc(q, a);
    if k <= q {
      MulLe(k, q, a);
    } else {
      MulLe(q + 1, k, a);
    }
    if q <= k {
      MulLe(q, k, a);
    } else {
      MulSucc(q, a);
      MulLe(k, q - 1, a);
    }
  }

  lemma Quotient(x: int, a: nat)
    requires a > 0
    ensures (x / a) * a <= x < (x / a) * a + a && x % a == x - (x / a) * a
  {
  }

  lemma QuotientIs(x: int, k: int, a: nat)
    requires a > 0 && k * a <= x < k * a + a
    ensures x / a == k && x % a == x - k * a
  {
    Quotient(x, a);
    Squeeze(k, x / a, a, x);
    Squeeze(x / a, k, a, x);
  }

  lemma MulMod(k: int, a: nat)
    requires a > 0
    ensures (k * a) % a == 0
  {
    QuotientIs(k * a, k, a);
  }

  lemma DownIs(x: int, a: nat)
    requires a > 0
    ensures Down(x, a) == (x / a) * a && Down(x, a) % a == 0 && Down(x, a) <= x < Down(x, a) + a
  {
    Quotient(x, a);
    MulMod(x / a, a);
  }

  /** `Down` is the greatest multiple that is not above. */
  lemma DownGreatest(x: int, m: int, a: nat)
    requires a > 0 && m % a == 0 && m <= x
    ensures m <= Down(x, a)
  {
    DownIs(x, a);
    Quotient(m, a);
    Quotient(x, a);
    Squeeze(m / a, x / a, a, x);
  }

  lemma UpIs(x: int, a: nat)
    requires a > 0
    ensures x <= Up(x, a) < x + a && Up(x, a) % a == 0
  {
    DownIs(x + a - 1, a);
  }

  /** `Up` is the least multiple that is not below. */
  lemma UpLeast(x: int, m: int, a: nat)
    requires a > 0 && m % a == 0 && x <= m
    ensures Up(x, a) <= m
  {
    UpIs(x, a);
    if Up(x, a) > m {
      DownGreatest(Up(x, a) - 1, m, a);
      Quotient(m, a);
      Quotient(Up(x, a), a);
      var (k, q) := (m / a, Up(x, a) / a);
      if q <= k {
        MulLe(q, k, a);
      } else {
        MulSucc(k, a);
        MulLe(k + 1, q, a);
      }
    }
  }

  lemma MultipleOf(x: int, a: nat, b: nat)
    requires a > 0 && b > 0 && b % a == 0 && x % b == 0
    ensures x % a == 0 && a <= b
  {
    var (k, l) := (x / b, b / a);
    Quotient(x, b);
    Quotient(b, a);
    assert x == (k * l) * a by {
      assert x == k * (l * a);
    }
    MulMod(k * l, a);
  }

  /** Rounding to a coarser alignment goes further out. */
  lemma Nests(x: int, a: nat, b: nat)
    requires a > 0 && b > 0 && b % a == 0
    ensures a <= b && Down(x, b) <= Down(x, a) && Up(x, a) <= Up(x, b)
  {
    DownIs(x, b);
    MultipleOf(Down(x, b), a, b);
    DownGreatest(x, Down(x, b), a);
    UpIs(x, b);
    MultipleOf(Up(x, b), a, b);
    UpLeast(x, Up(x, b), a);
  }

  lemma UpValue(x: int, a: nat)
    requires a > 0
    ensures Up(x, a) == if x % a == 0 then x else x + a - x % a
  {
    Quotient(x, a);
    MulSucc(x / a, a);
    QuotientIs(x + a - 1, if x % a == 0 then x / a else x / a + 1, a);
  }

  lemma MultipleDiff(m: int, n: int, a: nat)
    requires a > 0 && m % a == 0 && n % a == 0
    ensures (m - n) % a == 0 && (m + n) % a == 0 && (m > n ==> m - n >= a)
  {
    Quotient(m, a);
    Quotient(n, a);
    var (k, l) := (m / a, n / a);
    assert (k - l) * a == m - n && (k + l) * a == m + n;
    MulMod(k - l, a);
    MulMod(k + l, a);
    if k - l >= 1 {
      MulLe(1, k - l, a);
    } else {
      MulLe(k - l, 0, a);
    }
  }

  lemma ModShift(x: int, n: nat, a: nat)
    requires a > 0
    ensures (x % a + n) % a == (x + n) % a
  {
    Quotient(x, a);
    Quotient(x % a + n, a);
    var (k, q) := (x / a, (x % a + n) / a);
    assert (k + q) * a == k * a + q * a;
    QuotientIs(x + n, k + q, a);
  }

  lemma ModDistinct(i: int, j: int, a: nat)
    requires a > 0 && i < j < i + a
    ensures i % a != j % a
  {
    Quotient(i, a);
    Quotient(j, a);
    if i % a == j % a {
      var (k, l) := (i / a, j / a);
      if l <= k {
        MulLe(l, k, a);
      } else {
        MulLe(k + 1, l, a);
        MulSucc(k, a);
      }
    }
  }
}
