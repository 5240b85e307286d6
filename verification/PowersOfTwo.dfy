/** Powers of two and binary logarithms. */
module PowersOfTwo {
  function Pow2(n: nat): (r: nat)
    ensures r > 0
  {
    if n == 0 then 1 else 2 * Pow2(n - 1)
  }

  lemma {:induction false} PowSum(a: nat, b: nat)
    ensures Pow2(a + b) == Pow2(a) * Pow2(b)
    decreases a
  {
    if a > 0 {
      PowSum(a - 1, b);
      Doubled(Pow2(a - 1), Pow2(b));
    }
  }

  lemma Doubled(x: nat, y: nat)
    ensures 2 * (x * y) == 2 * x * y
  {
  }

  lemma {:induction false} PowMonotone(a: nat, b: nat)
    requires a <= b
    ensures Pow2(a) <= Pow2(b)
    decreases b
  {
    if a < b { PowMonotone(a, b - 1); }
  }

  function Log2(a: nat): nat
    requires a > 0
  {
    if a == 1 then 0 else 1 + Log2(a / 2)
  }

  lemma {:induction false} Log2Bounds(a: nat)
    requires a > 0
    ensures Pow2(Log2(a)) <= a < Pow2(Log2(a) + 1)
    decreases a
  {
    if a > 1 {
      Log2Bounds(a / 2);
    } else {
      assert Pow2(1) == 2;
    }
  }

  lemma Log2Unique(a: nat, e: nat)
    requires a > 0 && Pow2(e) <= a < Pow2(e + 1)
    ensures Log2(a) == e
  {
    Log2Bounds(a);
    if Log2(a) < e { PowMonotone(Log2(a) + 1, e); }
    if e < Log2(a) { PowMonotone(e + 1, Log2(a)); }
  }
}
