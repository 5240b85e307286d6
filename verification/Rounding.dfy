/** Rounding an integer to a multiple of a unit, to the nearest one and to an even one on a tie. */
module Rounding {
  import opened Arithmetic

  /** How many units `a` is rounded to. */
  function NearestEven(a: nat, u: nat): (r: nat)
    requires u > 0
  {
    var q, rem := a / u, a % u;
    if 2 * rem < u || (2 * rem == u && q % 2 == 0) then q else q + 1
  }

  lemma AtLeast(n: int, u: nat)
    ensures n >= 1 ==> n * u >= u
    ensures n <= -1 ==> n * u + u <= 0
    ensures n == 0 ==> n * u == 0
  {
  }

  /** No multiple of the unit is nearer; another one as near makes the chosen one even. Scaling by `s`
      changes nothing. */
  lemma NearestEvenIsNearest(a: nat, u: nat, s: nat, k: int)
    requires u > 0 && s > 0
    ensures Abs(a * s - NearestEven(a, u) * (u * s)) <= Abs(a * s - k * (u * s))
    ensures k != NearestEven(a, u) && Abs(a * s - NearestEven(a, u) * (u * s)) == Abs(a * s - k * (u * s)) ==>
      NearestEven(a, u) % 2 == 0
  {
    var q, rem, us := a / u, a % u, u * s;
    Quotient(a, u);
    assert a * s == q * us + rem * s by { Scaled(q, u, rem, s); }
    assert 2 * (rem * s) - us == (2 * rem - u) * s by { Factor(2 * rem, u, s); Doubled(rem, s); }
    assert 0 <= rem * s < us by { Less(rem, u, s); }
    Sign(2 * rem - u, s);
    assert q * us - k * us == (q - k) * us by { Factor(q, k, us); }
    AtLeast(q - k, us);
    AtLeast(q - k + 1, us);
    assert (q - k + 1) * us == (q - k) * us + us by { Factor(q - k, -1, us); }
    assert (q + 1) * us == q * us + us by { Factor(q, -1, us); }
  }

  lemma Scaled(q: nat, u: nat, rem: nat, s: nat)
    ensures (q * u + rem) * s == q * (u * s) + rem * s
  {
  }

  lemma Doubled(x: nat, s: nat)
    ensures 2 * x * s == 2 * (x * s)
  {
  }

  lemma Sign(x: int, s: nat)
    requires s > 0
    ensures (x * s < 0 <==> x < 0) && (x * s == 0 <==> x == 0)
  {
  }
}
