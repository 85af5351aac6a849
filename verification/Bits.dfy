/** JavaScript's bitwise operators on non-negative integers of any width. */
module Bits {
  import opened Numbers

  function Pow2(n: nat): (p: nat)
    ensures p > 0
  {
    Pow(2, n)
  }

  /** `a & b` */
  function And(a: nat, b: nat): nat {
    if a == 0 || b == 0 then 0
    else (if a % 2 == 1 && b % 2 == 1 then 1 else 0) + 2 * And(a / 2, b / 2)
  }

  /** `a | b` */
  function Or(a: nat, b: nat): nat
    decreases a + b
  {
    if a == 0 then b
    else if b == 0 then a
    else (if a % 2 == 1 || b % 2 == 1 then 1 else 0) + 2 * Or(a / 2, b / 2)
  }

  /** `a << n` */
  function Shl(a: nat, n: nat): nat {
    a * Pow2(n)
  }

  /** `a >> n` */
  function Shr(a: nat, n: nat): nat {
    DivMonotone(0, a, Pow2(n));
    a / Pow2(n)
  }

  /** Bit `b` of `i`, tested as the source does: `i & (1 << b)`. */
  predicate Bit(i: nat, b: nat) {
    And(i, Shl(1, b)) != 0
  }

  lemma {:induction false} BitIsDigit(i: nat, b: nat)
    ensures Bit(i, b) <==> (i / Pow2(b)) % 2 == 1
  {
    if b > 0 {
      BitIsDigit(i / 2, b - 1);
      DivDiv(i, 2, Pow2(b - 1));
      assert Pow2(b) % 2 == 0 && Pow2(b) / 2 == Pow2(b - 1);
      if i == 0 {
        assert 0 / Pow2(b) == 0 by { DivUnique(0, Pow2(b), 0); }
      }
    } else {
      assert And(i, 1) == if i % 2 == 1 then 1 else 0;
    }
  }

  /** Masking with `2^k - 1` keeps the low `k` bits. */
  lemma {:induction false} AndLowMask(v: nat, k: nat)
    ensures And(v, Pow2(k) - 1) == v % Pow2(k)
  {
    if k > 0 {
      AndLowMask(v / 2, k - 1);
      var p := Pow2(k - 1);
      assert Pow2(k) == 2 * p;
      assert (2 * p - 1) % 2 == 1 && (2 * p - 1) / 2 == p - 1;
      ModTwoP(v, p);
    }
  }

  lemma ModTwoP(v: int, p: nat)
    requires p > 0
    ensures v % (2 * p) == v % 2 + 2 * ((v / 2) % p)
  {
    var w := v / 2;
    var q := w / p;
    assert w == q * p + w % p;
    assert v == q * (2 * p) + (v % 2 + 2 * (w % p)) by {
      assert q * (2 * p) == 2 * (q * p);
    }
    DivUnique(v, 2 * p, q);
    assert v == (v / (2 * p)) * (2 * p) + v % (2 * p);
  }

  lemma AndDouble(i: nat, s: nat)
    ensures And(i, 2 * s) == 2 * And(i / 2, s)
  {
    assert (2 * s) % 2 == 0 && (2 * s) / 2 == s;
  }

  lemma ShlStep(c: nat, k: nat)
    requires k > 0
    ensures Shl(c, k) == 2 * Shl(c, k - 1)
  {
    MulAssoc(c, 2, Pow2(k - 1));
    MulAssoc(2, c, Pow2(k - 1));
  }

  lemma ShrStep(i: nat, k: nat)
    requires k > 0
    ensures Shr(i, k) == Shr(i / 2, k - 1)
  {
    DivDiv(i, 2, Pow2(k - 1));
  }

  /** Masking with a shifted mask masks the shifted value. */
  lemma {:induction false} AndShifted(i: nat, m: nat, b: nat)
    ensures And(i, Shl(m, b)) == Shl(And(Shr(i, b), m), b)
  {
    if b == 0 {
      assert Shr(i, b) == i / 1 == i;
    } else {
      AndShifted(i / 2, m, b - 1);
      ShlStep(m, b);
      ShrStep(i, b);
      AndDouble(i, Shl(m, b - 1));
      ShlStep(And(Shr(i, b), m), b);
    }
  }

  /** Or of a shifted value with one that fits below the shift is their sum. */
  lemma {:induction false} OrDisjoint(c: nat, k: nat, v: nat)
    requires v < Pow2(k)
    ensures Or(Shl(c, k), v) == Shl(c, k) + v
  {
    if k > 0 {
      var s := Shl(c, k - 1);
      assert Shl(c, k) == 2 * s;
      OrDisjoint(c, k - 1, v / 2);
      assert (2 * s) % 2 == 0 && (2 * s) / 2 == s;
    }
  }
}
