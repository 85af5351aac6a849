/** Powers and floor division: the arithmetic the digit and bit models share. */
module Numbers {

  function Pow(base: nat, n: nat): (p: nat)
    ensures base > 0 ==> p > 0
  {
    if n == 0 then 1
    else
      MulPositive(base, Pow(base, n - 1));
      base * Pow(base, n - 1)
  }

  lemma MulPositive(x: nat, y: nat)
    ensures x * y >= 0
    ensures x > 0 && y > 0 ==> x * y > 0
  {}

  lemma {:induction false} PowAdd(base: nat, m: nat, n: nat)
    ensures Pow(base, m + n) == Pow(base, m) * Pow(base, n)
  {
    if m > 0 {
      PowAdd(base, m - 1, n);
      assert Pow(base, m + n) == base * Pow(base, m - 1 + n);
      MulAssoc(base, Pow(base, m - 1), Pow(base, n));
    }
  }

  lemma MulAssoc(x: int, y: int, z: int)
    ensures x * (y * z) == (x * y) * z
  {}

  lemma Distribute(x: int, y: int, z: int)
    ensures (x + y) * z == x * z + y * z
  {}

  lemma MulMono(x: int, y: int, z: int)
    requires x <= y && 0 <= z
    ensures x * z <= y * z
  {}

  lemma MulStrict(x: int, y: int, z: int)
    requires x < y && 0 < z
    ensures x * z + z <= y * z
  {
    MulMono(x + 1, y, z);
  }

  /** `q` is the floor of `x / d` exactly when `x` lies in the `q`-th block of length `d`. */
  lemma DivUnique(x: int, d: int, q: int)
    requires d > 0
    ensures q == x / d <==> q * d <= x < q * d + d
  {
    var r := x / d;
    assert r * d <= x < r * d + d by {
      assert x == r * d + x % d;
    }
    if q < r { MulStrict(q, r, d); }
    if r < q { MulStrict(r, q, d); }
  }

  lemma DivDiv(x: int, a: int, b: int)
    requires a > 0 && b > 0
    ensures a * b > 0
    ensures (x / a) / b == x / (a * b)
  {
    MulPositive(a, b);
    var y := x / a;
    var q := y / b;
    DivUnique(x, a, y);
    DivUnique(y, b, q);
    assert q * (a * b) == (q * b) * a;
    MulMono(q * b, y, a);
    MulMono(y + 1, q * b + b, a);
    assert (y + 1) * a == y * a + a;
    assert (q * b + b) * a == (q * b) * a + a * b by { assert b * a == a * b; }
    DivUnique(x, a * b, q);
  }

  lemma DivBelow(num: nat, base: nat, p: nat)
    requires base > 0
    ensures num < base * p <==> num / base < p
  {
    DivUnique(num, base, num / base);
    if num / base < p { MulMono(num / base + 1, p, base); } else { MulMono(p, num / base, base); }
  }

  lemma DivMonotone(x: int, y: int, d: int)
    requires d > 0 && x <= y
    ensures x / d <= y / d
  {
    DivUnique(x, d, x / d);
    DivUnique(y, d, y / d);
    if y / d < x / d { MulStrict(y / d, x / d, d); }
  }
}
