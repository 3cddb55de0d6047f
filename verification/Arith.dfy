/** Division, alignment and powers of two: the arithmetic that the layout code does with shifts and masks. */
module Arith {

  lemma MulAtLeast(d: int, n: int)
    requires d >= 1 && n > 0
    ensures d * n >= n
  {
  }

  lemma MulNotPositive(d: int, n: int)
    requires d <= 0 && n > 0
    ensures d * n <= 0
  {
  }

  lemma MulMonotone(i: nat, n: nat, p: nat)
    requires i <= n
    ensures 0 <= i * p <= n * p
  {
  }

  /** The quotient and remainder of a division are determined by the equation they solve. */
  lemma DivModUnique(a: int, n: int, q: int, r: int)
    requires n > 0 && 0 <= r < n && a == q * n + r
    ensures a / n == q && a % n == r
  {
    var d := q - a / n;
    assert a == (a / n) * n + a % n;
    assert d * n == a % n - r by {
      assert d * n == q * n - (a / n) * n;
    }
    if d >= 1 {
      MulAtLeast(d, n);
    } else if d <= -1 {
      MulAtLeast(-d, n);
    }
  }

  /** `(n + a - 1) & -a` for a power of two `a`: the least multiple of `a` that is at least `n`. */
  function AlignUp(n: nat, a: nat): nat
    requires a > 0
  {
    (n + a - 1) / a * a
  }

  lemma AlignUpSpec(n: nat, a: nat)
    requires a > 0
    ensures AlignUp(n, a) % a == 0 && n <= AlignUp(n, a) < n + a
  {
    var q, r := (n + a - 1) / a, (n + a - 1) % a;
    assert n + a - 1 == q * a + r;
    DivModUnique(q * a, a, q, 0);
  }

  lemma DividesTrans(a: nat, b: nat, c: nat)
    requires a > 0 && b > 0 && b % a == 0 && c % b == 0
    ensures c % a == 0
  {
    var q, r := b / a, c / b;
    assert b == q * a && c == r * b;
    assert c == (r * q) * a;
    DivModUnique(c, a, r * q, 0);
  }

  /** An offset aligned to `b`, from an address aligned to a multiple of `b`. */
  lemma AlignedSum(address: nat, a: nat, offset: nat, b: nat)
    requires a > 0 && b > 0 && address % a == 0 && a % b == 0 && offset % b == 0
    ensures (address + offset) % b == 0
  {
    DividesTrans(b, a, address);
    var q, r := address / b, offset / b;
    assert address == q * b && offset == r * b;
    assert address + offset == (q + r) * b;
    DivModUnique(address + offset, b, q + r, 0);
  }

  /** Two different multiples of `a` are at least `a` apart. */
  lemma MultiplesApart(m: nat, n: nat, a: nat)
    requires a > 0 && m % a == 0 && n % a == 0 && m < n
    ensures m + a <= n
  {
    var q, r := m / a, n / a;
    assert m == q * a && n == r * a;
    assert (r - q) * a == n - m;
    if r - q <= 0 {
      MulNotPositive(r - q, a);
    } else {
      MulAtLeast(r - q, a);
    }
  }
}
