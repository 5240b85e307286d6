/** Facts about products and quotients. */
module Arithmetic {
  function Abs(x: int): nat {
    if x < 0 then -x else x
  }

  function Min(a: nat, b: nat): nat { if a < b then a else b }
  function Max(a: nat, b: nat): nat { if a < b then b else a }

  function Div(a: nat, u: nat): nat
    requires u > 0
  {
    a / u
  }

  lemma Quotient(a: nat, u: nat)
    requires u > 0
    ensures a == a / u * u + a % u && 0 <= a % u < u
  {
  }

  lemma Factor(p: int, q: int, u: int)
    ensures (p - q) * u == p * u - q * u
  {
  }

  lemma Times(x: nat, y: nat, s: nat)
    requires x <= y
    ensures x * s <= y * s
  {
  }

  lemma Less(x: nat, u: nat, s: nat)
    requires x < u && s > 0
    ensures x * s < u * s
  {
  }

  lemma Spread(x: nat, p: nat, q: nat)
    ensures x * (p + q) == x * p + x * q
  {
  }

  lemma Regroup(x: nat, y: nat, z: nat)
    ensures x * (y * z) == x * y * z
  {
  }

  lemma DivBetween(n: nat, w: nat, lo: nat, hi: nat)
    requires w > 0 && lo * w <= n <= hi * w
    ensures lo <= Div(n, w) <= hi
  {
    var d, r := Div(n, w), n % w;
    assert n == d * w + r && r < w by { Quotient(n, w); }
    hide Div;
    if d < lo { Times(d + 1, lo, w); Spread(w, d, 1); }
    if d > hi { Times(hi + 1, d, w); Spread(w, hi, 1); }
  }
}
