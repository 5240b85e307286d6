/** Converting 128-bit integers to double precision and back. */
module FloatConversion {
  import opened Arithmetic
  import opened PowersOfTwo
  import opened Rounding

  const TWO52: nat := 0x10_0000_0000_0000
  const TWO53: nat := 0x20_0000_0000_0000
  const TWO63: nat := 0x8000_0000_0000_0000
  const TWO64: nat := 0x1_0000_0000_0000_0000
  const TWO127: nat := TWO63 * TWO64
  const TWO128: nat := TWO64 * TWO64

  /** The fields of a double. */
  function Exponent(bits: nat): nat { bits / TWO52 % 2048 }
  function Fraction(bits: nat): nat { bits % TWO52 }
  predicate Negative(bits: nat) { bits >= TWO63 }
  predicate Finite(bits: nat) { Exponent(bits) != 2047 }

  /** The magnitude of a finite double, counted in the smallest positive double. */
  function Magnitude(bits: nat): nat {
    if Exponent(bits) == 0 then Fraction(bits) else (TWO52 + Fraction(bits)) * Pow2(Exponent(bits) - 1)
  }

  function Value(bits: nat): int {
    if Negative(bits) then 0 - Magnitude(bits) else Magnitude(bits)
  }

  /** One, counted in the smallest positive double. */
  function One(): nat {
    Pow2(1074)
  }

  /** The double is as near as any, and even where another one is as near. */
  ghost predicate IsNearest(a: nat, x: nat) {
    && Finite(x)
    && forall y :: 0 <= y < TWO64 && Finite(y) ==>
         && Abs(a * One() - Value(x)) <= Abs(a * One() - Value(y))
         && (Abs(a * One() - Value(x)) == Abs(a * One() - Value(y)) && Value(x) != Value(y) ==> x % 2 == 0)
  }

  /** A double with exponent `e` and 53-bit significand `m`. */
  function Assemble(e: nat, m: nat): nat
    requires TWO52 <= m < TWO53 && e + 1023 < 2047
  {
    (e + 1023) * TWO52 + (m - TWO52)
  }

  lemma Assembled(e: nat, m: nat)
    requires TWO52 <= m < TWO53 && e + 1023 < 2047
    ensures var x := Assemble(e, m);
      && Finite(x) && !Negative(x) && x < TWO64 && x % 2 == m % 2
      && Value(x) == m * Pow2(e + 1022)
  {
    hide Pow2;
    var x := Assemble(e, m);
    assert x / TWO52 == e + 1023;
    assert x % TWO52 == m - TWO52;
  }

  /** What an unsigned 128-bit integer is converted to. */
  function Converted(a: nat): nat
    requires a < TWO128
  {
    if a == 0 then 0
    else
      var e := Log2(a);
      Log2Small(a);
      if e <= 52 then
        ShiftedUp(a);
        Assemble(e, a * Pow2(52 - e))
      else
        var m := NearestEven(a, Pow2(e - 52));
        SignificandSize(a);
        if m == TWO53 then Assemble(e + 1, TWO52) else Assemble(e, m)
  }

  lemma Powers()
    ensures Pow2(52) == TWO52 && Pow2(53) == TWO53 && Pow2(128) == TWO128
  {
    hide Pow2;
    Pow8();
    PowSum(8, 8);
    PowSum(16, 16);
    PowSum(32, 32);
    PowSum(64, 64);
    PowSum(32, 16);
    assert Pow2(48) == 0x1_0000_0000_0000;
    Next(48);
    Next(49);
    Next(50);
    Next(51);
    Next(52);
  }

  lemma Pow8()
    ensures Pow2(8) == 256
  {
  }

  lemma Next(n: nat)
    ensures Pow2(n + 1) == 2 * Pow2(n)
  {
  }

  lemma Log2Small(a: nat)
    requires 0 < a < TWO128
    ensures Log2(a) < 128
  {
    hide Pow2, Log2;
    Log2Bounds(a);
    Powers();
    if Log2(a) >= 128 { PowMonotone(128, Log2(a)); }
  }

  lemma ShiftedUp(a: nat)
    requires a > 0 && Log2(a) <= 52
    ensures TWO52 <= a * Pow2(52 - Log2(a)) < TWO53
  {
    hide Pow2, Log2;
    var e := Log2(a);
    Log2Bounds(a);
    PowSum(e, 52 - e);
    PowSum(e + 1, 52 - e);
    Powers();
    Times(Pow2(e), a, Pow2(52 - e));
    Less(a, Pow2(e + 1), Pow2(52 - e));
  }

  lemma SignificandSize(a: nat)
    requires a > 0 && Log2(a) > 52
    ensures TWO52 <= NearestEven(a, Pow2(Log2(a) - 52)) <= TWO53
  {
    hide Pow2, Log2;
    var e := Log2(a);
    var u := Pow2(e - 52);
    Log2Bounds(a);
    PowSum(52, e - 52);
    PowSum(53, e - 52);
    Powers();
    assert TWO52 * u <= a < TWO53 * u;
    QuotientBetween(a, u);
  }

  lemma QuotientBetween(a: nat, u: nat)
    requires u > 0 && TWO52 * u <= a < TWO53 * u
    ensures TWO52 <= a / u < TWO53
  {
    Quotient(a, u);
    var q := a / u;
    if q < TWO52 { Times(q + 1, TWO52, u); }
    if q >= TWO53 { Times(TWO53, q, u); }
  }

  /** Where a double lies, seen from an exponent: below that binade, or on its grid. */
  lemma OnGrid(y: nat, e: nat) returns (k: int)
    requires 0 <= y < TWO64 && Finite(y)
    ensures Value(y) < TWO52 * Pow2(e + 1022) || Value(y) == k * Pow2(e + 1022)
  {
    hide Pow2;
    k := 0;
    var exp := Exponent(y);
    if Negative(y) {
      Positive(TWO52, Pow2(e + 1022));
    } else if exp == 0 {
      Times(1, Pow2(e + 1022), TWO52);
    } else if exp - 1 < e + 1022 {
      PowMonotone(exp, e + 1022);
      Next(exp - 1);
      Less(TWO52 + Fraction(y), TWO53, Pow2(exp - 1));
      Times(Pow2(exp), Pow2(e + 1022), TWO52);
    } else {
      PowSum(exp - 1 - (e + 1022), e + 1022);
      k := (TWO52 + Fraction(y)) * Pow2(exp - 1 - (e + 1022));
      Regroup(TWO52 + Fraction(y), Pow2(exp - 1 - (e + 1022)), Pow2(e + 1022));
    }
  }

  lemma Positive(x: nat, y: nat)
    requires x > 0 && y > 0
    ensures x * y > 0
  {
  }

  /** A multiple of the unit of the binade of `a` that is nearest to `a` is nearest among all doubles. */
  lemma NearestOnGrid(a: nat, m: nat, x: nat)
    requires 0 < a < TWO128 && 52 < Log2(a) && m == NearestEven(a, Pow2(Log2(a) - 52))
    requires Finite(x) && Value(x) == m * Pow2(Log2(a) + 1022) && (m % 2 == 0 ==> x % 2 == 0)
    ensures IsNearest(a, x)
  {
    hide Pow2, Log2, Value, Finite;
    var e := Log2(a);
    var u, grid := Pow2(e - 52), Pow2(e + 1022);
    UnitScaled(e);
    forall y | 0 <= y < TWO64 && Finite(y)
      ensures Abs(a * One() - Value(x)) <= Abs(a * One() - Value(y))
      ensures Abs(a * One() - Value(x)) == Abs(a * One() - Value(y)) && Value(x) != Value(y) ==> x % 2 == 0
    {
      var k := OnGrid(y, e);
      NearestEvenIsNearest(a, u, One(), k);
      NearestEvenIsNearest(a, u, One(), TWO52);
      AboveBinade(a);
    }
  }

  lemma UnitScaled(e: nat)
    requires e > 52
    ensures Pow2(e + 1022) == Pow2(e - 52) * One() && One() > 0
  {
    hide Pow2;
    PowSum(e - 52, 1074);
  }

  lemma AboveBinade(a: nat)
    requires a > 0 && Log2(a) > 52
    ensures a * One() >= TWO52 * Pow2(Log2(a) + 1022)
  {
    hide Pow2, Log2;
    var e := Log2(a);
    Log2Bounds(a);
    Times(Pow2(e), a, One());
    PowSum(e, 1074);
    PowSum(52, e + 1022);
    Powers();
  }

  /** The double closest to the integer, ties going to the even one. */
  lemma ConvertedNearest(a: nat)
    requires a < TWO128
    ensures IsNearest(a, Converted(a)) && !Negative(Converted(a))
  {
    hide Pow2, Log2, Value, Finite, IsNearest;
    if a == 0 {
      ZeroExact();
    } else {
      var e := Log2(a);
      Log2Small(a);
      if e <= 52 {
        ShiftedUp(a);
        Assembled(e, a * Pow2(52 - e));
        PowSum(52 - e, e + 1022);
        Regroup(a, Pow2(52 - e), Pow2(e + 1022));
        Exact(a, Converted(a));
      } else {
        var m := NearestEven(a, Pow2(e - 52));
        SignificandSize(a);
        if m == TWO53 {
          Assembled(e + 1, TWO52);
          Next(e + 1022);
          NearestOnGrid(a, m, Assemble(e + 1, TWO52));
        } else {
          Assembled(e, m);
          NearestOnGrid(a, m, Assemble(e, m));
        }
      }
    }
  }

  lemma ZeroExact()
    ensures IsNearest(0, 0) && !Negative(0)
  {
    hide Pow2;
  }

  /** A double that equals the integer is nearest to it. */
  lemma Exact(a: nat, x: nat)
    requires Finite(x) && Value(x) == a * One()
    ensures IsNearest(a, x)
  {
    hide Pow2;
  }

  /** Leading zeros of a 64-bit word. */
  function LeadingZeros64(x: nat): int
    requires 0 < x < TWO64
  {
    63 - Log2(x)
  }

  /** Leading zeros of a 128-bit integer, from its two halves. */
  function LeadingZeros(a: nat): int
    requires 0 < a < TWO128
  {
    if a / TWO64 == 0 then LeadingZeros64(a % TWO64) + 64 else LeadingZeros64(a / TWO64)
  }

  lemma LeadingZerosMeaning(a: nat)
    requires 0 < a < TWO128
    ensures LeadingZeros(a) == 127 - Log2(a)
  {
    hide Pow2, Log2;
    var high, low := a / TWO64, a % TWO64;
    if high > 0 {
      var h := Log2(high);
      Log2Bounds(high);
      Pow64();
      PowSum(h, 64);
      PowSum(h + 1, 64);
      Times(Pow2(h), high, TWO64);
      Times(high + 1, Pow2(h + 1), TWO64);
      Log2Unique(a, h + 64);
    }
  }

  lemma Pow64()
    ensures Pow2(64) == TWO64
  {
    hide Pow2;
    Pow8();
    PowSum(8, 8);
    PowSum(16, 16);
    PowSum(32, 32);
  }

  /** `x` with its lowest bit set if `flag` holds. */
  function OrBit(x: nat, flag: bool): nat {
    if flag && x % 2 == 0 then x + 1 else x
  }

  /** Rounds away two low bits: the half-bit and the bit that says whether anything lies below it. */
  function Finish(x: nat): nat {
    (OrBit(x, x / 4 % 2 == 1) + 1) / 4
  }

  lemma StickyRounds(a: nat, w: nat)
    requires w > 0
    ensures Finish(OrBit(a / w, a % w != 0)) == NearestEven(a, 4 * w)
  {
    var x, rem := a / w, a % w;
    var q, t := x / 4, x % 4;
    FourTimes(a, w);
    var t' := if rem != 0 && t % 2 == 0 then t + 1 else t;
    assert OrBit(x, rem != 0) == 4 * q + t';
    FinishOf(q, t');
    hide Finish, OrBit;
    Half(t, w, rem);
  }

  /** Where a remainder stands to half of four units. */
  lemma Half(t: nat, w: nat, rem: nat)
    requires t < 4 && rem < w
    ensures 2 * (t * w + rem) < 4 * w <==> t < 2
    ensures 2 * (t * w + rem) == 4 * w <==> t == 2 && rem == 0
  {
    if t == 0 { assert t * w == 0; }
    else if t == 1 { assert t * w == w; }
    else if t == 2 { assert t * w == 2 * w; }
    else { assert t * w == 3 * w; }
  }

  /** The last two bits decide, and on a tie the bit before them. */
  lemma FinishOf(q: nat, t: nat)
    requires t < 4
    ensures Finish(4 * q + t) == if t == 3 || (t == 2 && q % 2 == 1) then q + 1 else q
  {
    hide OrBit;
    DivFour(q, t);
    var x := 4 * q + t;
    var t' := if q % 2 == 1 && t % 2 == 0 then t + 1 else t;
    assert OrBit(x, q % 2 == 1) == 4 * q + t' by { SetBit(q, t, q % 2 == 1); }
    DivFour(q, t' + 1);
  }

  lemma SetBit(q: nat, t: nat, flag: bool)
    ensures OrBit(4 * q + t, flag) == 4 * q + if flag && t % 2 == 0 then t + 1 else t
  {
    var half := 2 * q + t / 2;
    assert 4 * q + t == 2 * half + t % 2;
    assert (2 * half + t % 2) % 2 == t % 2;
  }

  lemma DivFour(q: nat, u: nat)
    requires u <= 4
    ensures (4 * q + u) / 4 == if u == 4 then q + 1 else q
  {
  }

  lemma FourTimes(a: nat, w: nat)
    requires w > 0
    ensures a / (4 * w) == a / w / 4 && a % (4 * w) == a / w % 4 * w + a % w
  {
    var x, rem := a / w, a % w;
    Quotient(a, w);
    Quotient(a, 4 * w);
    var q, t := x / 4, x % 4;
    assert x * w == q * (4 * w) + t * w by { Split4(q, t, w); }
    var r := t * w + rem;
    assert 0 <= r < 4 * w by { Times(t + 1, 4, w); Distribute1(t, w); }
    SameQuotient(a, 4 * w, q, r);
  }

  lemma Split4(q: nat, t: nat, w: nat)
    ensures (4 * q + t) * w == q * (4 * w) + t * w
  {
  }

  lemma Distribute1(t: nat, w: nat)
    ensures (t + 1) * w == t * w + w
  {
  }

  lemma SameQuotient(a: nat, u: nat, q: nat, r: nat)
    requires u > 0 && a == q * u + r && r < u
    ensures a / u == q && a % u == r
  {
    Quotient(a, u);
    var d := a / u - q;
    Factor(a / u, q, u);
    if d >= 1 { Times(1, d, u); }
    if d <= -1 { Times(1, -d, u); Factor(0, -d, u); }
  }

  /** The shift that leaves 55 bits, the lowest of them standing for all that was shifted out. */
  function Squeeze(a: nat, sd: nat): nat
    requires sd > 53
  {
    if sd == 54 then a * 2
    else if sd == 55 then a
    else OrBit(Div(a, Pow2(sd - 55)), a % Pow2(sd - 55) != 0)
  }

  lemma SqueezeRounds(a: nat, sd: nat)
    requires sd > 53
    ensures Finish(Squeeze(a, sd)) == NearestEven(a, Pow2(sd - 53))
  {
    hide Pow2;
    Pow012();
    if sd == 54 {
      TieByTwo(a);
    } else {
      var w := Pow2(sd - 55);
      Next(sd - 55);
      Next(sd - 54);
      StickyRounds(a, w);
    }
  }

  lemma TieByTwo(a: nat)
    ensures Finish(a * 2) == NearestEven(a, 2)
  {
    var q, r := a / 2, a % 2;
    assert a * 2 == 4 * q + 2 * r;
    assert a * 2 / 4 == q;
  }

  lemma Pow012()
    ensures Pow2(0) == 1 && Pow2(1) == 2
  {
  }

  /** Unsigned 128-bit integer to double, step by step. */
  method FloatUnsigned(n: nat) returns (bits: nat)
    requires n < TWO128
    ensures bits == Converted(n)
  {
    hide Pow2, Log2, NearestEven, Squeeze, Finish;
    if n == 0 {
      return 0;
    }
    LeadingZerosMeaning(n);
    Log2Small(n);
    var a, sd := n, 128 - LeadingZeros(n);
    var e := sd - 1;
    if sd > 53 {
      SignificandSize(n);
      SqueezeRounds(n, sd);
      a := Squeeze(a, sd);
      a := Finish(a);
      if a / TWO53 % 2 == 1 {
        a, e := a / 2, e + 1;
      }
    } else {
      ShiftedUp(n);
      a := a * Pow2(53 - sd);
    }
    var high := (e + 1023) * 0x10_0000 + a / 0x1_0000_0000 % 0x10_0000;
    var low := a % 0x1_0000_0000;
    bits := high * 0x1_0000_0000 + low;
    Joined(e, a);
  }

  lemma Joined(e: nat, m: nat)
    requires TWO52 <= m < TWO53 && e + 1023 < 2047
    ensures ((e + 1023) * 0x10_0000 + m / 0x1_0000_0000 % 0x10_0000) * 0x1_0000_0000 + m % 0x1_0000_0000 ==
      Assemble(e, m)
  {
    assert m / 0x1_0000_0000 % 0x10_0000 == m / 0x1_0000_0000 - 0x10_0000;
  }

  /** Signed 128-bit integer to double: the magnitude is converted, the sign put back. */
  method FloatSigned(n: int) returns (bits: nat)
    requires 0 - TWO127 <= n < TWO127
    ensures bits == (if n < 0 then TWO63 else 0) + Converted(Abs(n))
    ensures Value(bits) == if n < 0 then 0 - Value(Converted(Abs(n))) else Value(Converted(Abs(n)))
  {
    var magnitude := if n < 0 then 0 - n else n;
    bits := FloatUnsigned(magnitude);
    SignedValue(Abs(n));
    if n < 0 {
      bits := bits + TWO63;
    }
  }

  lemma SignedValue(a: nat)
    requires a < TWO128
    ensures Converted(a) < TWO63 && Value(TWO63 + Converted(a)) == 0 - Value(Converted(a))
  {
    hide Pow2, Log2, IsNearest, Converted;
    ConvertedNearest(a);
    var x := Converted(a);
    assert (TWO63 + x) / TWO52 == 2048 + x / TWO52;
    assert (TWO63 + x) % TWO52 == x % TWO52;
  }

  /** A double to an unsigned 128-bit integer: cut to its integer part, and to the range of the type. */
  function FixUnsigned(bits: nat): nat
    requires bits < TWO64
  {
    var exponent := Exponent(bits) - 1023;
    var significand := TWO52 + Fraction(bits);
    if Negative(bits) || exponent < 0 then 0
    else if exponent >= 128 then TWO128 - 1
    else if exponent < 52 then Div(significand, Pow2(52 - exponent))
    else significand * Pow2(exponent - 52)
  }

  /** The integer part of a double that fits; the end of the range on the side of one that does not. */
  lemma FixTruncates(bits: nat)
    requires bits < TWO64
    ensures Negative(bits) ==> FixUnsigned(bits) == 0
    ensures !Negative(bits) && Exponent(bits) < 1151 ==>
      FixUnsigned(bits) * One() <= Value(bits) < (FixUnsigned(bits) + 1) * One()
    ensures !Negative(bits) && Exponent(bits) >= 1151 ==>
      FixUnsigned(bits) == TWO128 - 1 && Value(bits) >= TWO128 * One()
  {
    hide Pow2, Div;
    var exp, m := Exponent(bits), TWO52 + Fraction(bits);
    if Negative(bits) {
    } else if exp >= 1151 {
      AboveRange(bits);
    } else if exp < 1023 {
      BelowOne(bits);
    } else if exp - 1023 < 52 {
      var w := Pow2(52 - (exp - 1023));
      PowSum(exp - 1, 52 - (exp - 1023));
      CutBelow(m, w, Pow2(exp - 1));
    } else {
      PowSum(exp - 1023 - 52, 1074);
      Regroup(m, Pow2(exp - 1023 - 52), One());
      Distribute1(FixUnsigned(bits), One());
    }
  }

  lemma CutBelow(m: nat, w: nat, s: nat)
    requires w > 0
    ensures Div(m, w) * (s * w) <= m * s
    ensures s > 0 ==> m * s < (Div(m, w) + 1) * (s * w)
  {
    Quotient(m, w);
    var q := Div(m, w);
    hide Div;
    Times(q * w, m, s);
    Times(m + 1, (q + 1) * w, s);
    Distribute1(q, w);
    Distribute1(m, s);
    Regroup(q, w, s);
    Regroup(q + 1, w, s);
  }

  lemma BelowOne(bits: nat)
    requires Exponent(bits) < 1023
    ensures Magnitude(bits) < One()
  {
    hide Pow2;
    var exp := Exponent(bits);
    Powers();
    PowMonotone(53, 1074);
    if exp > 0 {
      PowSum(53, exp - 1);
      PowMonotone(exp + 52, 1074);
      Less(TWO52 + Fraction(bits), TWO53, Pow2(exp - 1));
    }
  }

  /** A double with a large exponent is beyond the 128-bit range. */
  lemma AboveRange(bits: nat)
    requires Exponent(bits) >= 1151
    ensures Magnitude(bits) >= TWO128 * One()
  {
    hide Pow2;
    var exp := Exponent(bits);
    Powers();
    PowSum(128, 1074);
    PowSum(52, exp - 1);
    PowMonotone(1202, exp + 51);
    Times(TWO52, TWO52 + Fraction(bits), Pow2(exp - 1));
  }

  /** Cutting undoes converting for every integer that some double equals. */
  lemma FixInverts(a: nat, y: nat)
    requires a < TWO128 && y < TWO64 && Finite(y) && Value(y) == a * One()
    ensures Converted(a) < TWO64 && FixUnsigned(Converted(a)) == a
  {
    hide Pow2, Log2, FixUnsigned, Converted, Value;
    var x := Converted(a);
    ConvertedNearest(a);
    SignedValue(a);
    assert Value(x) == a * One();
    NotNegative(x);
    if Exponent(x) >= 1151 {
      AboveRange(x);
      Less(a, TWO128, One());
      assert false;
    }
    FixTruncates(x);
    Between(FixUnsigned(x), a, One());
  }

  lemma NotNegative(x: nat)
    requires !Negative(x)
    ensures Value(x) == Magnitude(x)
  {
  }

  lemma Between(f: nat, a: nat, s: nat)
    requires s > 0 && f * s <= a * s < (f + 1) * s
    ensures f == a
  {
    if f > a { Times(a + 1, f, s); Distribute1(a, s); }
    if f < a { Times(f + 1, a, s); }
  }
}
