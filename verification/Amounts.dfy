/** Asset amounts as decimal strings. */
module Amounts {
  import opened Arithmetic
  import opened Options

  const MAX_SUPPLY: nat := 1_000_000_000_000_000
  const TWO63: nat := 0x8000_0000_0000_0000

  /** The number of smallest units in one whole unit. */
  function Pow10(p: nat): (r: nat)
    ensures r > 0
  {
    if p == 0 then 1 else 10 * Pow10(p - 1)
  }

  function Digit(d: nat): char
    requires d < 10
  {
    '0' + d as char
  }

  predicate IsDigit(c: char) {
    '0' <= c <= '9'
  }

  function Digits(n: nat): (r: string)
    ensures |r| > 0
  {
    if n < 10 then [Digit(n)] else Digits(n / 10) + [Digit(n % 10)]
  }

  predicate AllDigits(s: string) {
    forall i :: 0 <= i < |s| ==> IsDigit(s[i])
  }

  /** The number a string of digits spells. */
  function Number(s: string): nat
    requires AllDigits(s)
  {
    if s == [] then 0 else 10 * Number(s[..|s| - 1]) + (s[|s| - 1] - '0') as nat
  }

  /** How many digits a string starts with. */
  function Leading(s: string): (n: nat)
    ensures n <= |s| && AllDigits(s[..n]) && (n < |s| ==> !IsDigit(s[n]))
  {
    if s == [] || !IsDigit(s[0]) then 0
    else
      var n := Leading(s[1..]);
      assert s[..n + 1] == [s[0]] + s[1..][..n];
      n + 1
  }

  function InRange(x: int): Option<int> {
    if 0 - TWO63 <= x < TWO63 then Some(x) else None
  }

  /** Reads a number off the front of a string, with an optional sign; None if there is no digit, or the
      number does not fit 64 bits. */
  function ReadNumber(s: string): Option<int> {
    if s != [] && s[0] == '-' then
      var n := Leading(s[1..]);
      if n == 0 then None else InRange(0 - Number(s[1..][..n]))
    else
      var n := Leading(s);
      if n == 0 then None else InRange(Number(s[..n]))
  }

  /** The place of a character, or the length of the string. */
  function Find(s: string, c: char): (i: nat)
    ensures i <= |s| && (i < |s| ==> s[i] == c) && forall k :: 0 <= k < i ==> s[k] != c
  {
    if s == [] || s[0] == c then 0 else 1 + Find(s[1..], c)
  }

  /** At most `n` characters from place `i` on. */
  function Substring(s: string, i: nat, n: nat): string
    requires i <= |s|
  {
    if i + n <= |s| then s[i..i + n] else s[i..]
  }

  function Count(s: string, c: char): nat {
    if s == [] then 0 else Count(s[..|s| - 1], c) + if s[|s| - 1] == c then 1 else 0
  }

  /** Only digits, and at most one sign and one point, in any place. */
  predicate Readable(s: string) {
    && (forall i :: 0 <= i < |s| ==> IsDigit(s[i]) || s[i] == '-' || s[i] == '.')
    && Count(s, '-') <= 1 && Count(s, '.') <= 1
  }

  function Padded(s: string, n: nat): (r: string)
    ensures |r| == if |s| < n then n else |s|
    decreases n - |s|
  {
    if |s| < n then Padded(s + "0", n) else s
  }

  /** The smallest units in the part before the point. */
  function WholePart(s: string, precision: nat): Option<int> {
    var negative := Count(s, '-') == 1;
    var point := Find(s, '.');
    var start := if negative && |s| > 0 then 1 else 0;
    var lhs := Substring(s, start, point);
    if lhs == [] then Some(0)
    else
      match ReadNumber(lhs)
      case None => None
      case Some(n) => InRange(n * Pow10(precision))
  }

  /** The smallest units in the part after the point. */
  function FractionPart(s: string, precision: nat): Option<int> {
    var point := Find(s, '.');
    if point == |s| then Some(0)
    else
      var rhs := s[point + 1..];
      if |rhs| > precision then None
      else if precision == 0 then Some(0)
      else ReadNumber(Padded(rhs, precision))
  }

  /** What a string means as an amount; None where it is refused. */
  function Meaning(s: string, precision: nat): Option<int> {
    if !Readable(s) || precision >= 19 then None
    else
      match WholePart(s, precision)
      case None => None
      case Some(whole) =>
        match FractionPart(s, precision)
        case None => None
        case Some(fraction) =>
          if InRange(whole + fraction).None? || whole + fraction > MAX_SUPPLY then None
          else InRange(if Count(s, '-') == 1 then 0 - (whole + fraction) else whole + fraction)
  }

  /** The string of a number of whole units and some decimals, out of `scale`. */
  function Written(negative: bool, whole: nat, decimals: nat, scale: nat): string {
    var front := if negative && whole > 0 then "-" + Digits(whole) else Digits(whole);
    if decimals == 0 then front
    else (if negative && front == "0" then "-0" else front) + "." + Digits(scale + decimals)[1..]
  }

  /** The string of an amount. */
  function Printed(x: int, precision: nat): string {
    Written(x < 0, Div(Abs(x), Pow10(precision)), Abs(x) % Pow10(precision), Pow10(precision))
  }

  lemma {:induction false} DigitsBack(n: nat)
    ensures AllDigits(Digits(n)) && Number(Digits(n)) == n
  {
    if n < 10 {
      assert Digits(n)[..0] == [];
    } else {
      DigitsBack(n / 10);
      assert Digits(n)[..|Digits(n)| - 1] == Digits(n / 10);
    }
  }

  /** Behind a leading one, a number is written with all its zeros. */
  lemma {:induction false} PaddedDigits(p: nat, d: nat)
    requires d < Pow10(p)
    ensures var t := Digits(Pow10(p) + d); |t| == p + 1 && AllDigits(t[1..]) && Number(t[1..]) == d
  {
    var n := Pow10(p) + d;
    var t := Digits(n);
    if p == 0 {
      assert t[1..] == [];
    } else {
      assert n / 10 == Pow10(p - 1) + d / 10 && n % 10 == d % 10;
      PaddedDigits(p - 1, d / 10);
      var u := Digits(n / 10);
      assert t == u + [Digit(d % 10)];
      assert t[1..] == u[1..] + [Digit(d % 10)];
      assert t[1..][..p - 1] == u[1..];
    }
  }

  lemma {:induction false} LeadingDigits(a: string, b: string)
    requires AllDigits(a) && (b == [] || !IsDigit(b[0]))
    ensures Leading(a + b) == |a|
    decreases |a|
  {
    if a == [] {
      assert a + b == b;
    } else {
      assert (a + b)[1..] == a[1..] + b;
      LeadingDigits(a[1..], b);
    }
  }

  /** A number is read off the front, up to the first character that is no digit. */
  lemma ReadDigits(a: string, b: string)
    requires a != [] && AllDigits(a) && (b == [] || !IsDigit(b[0]))
    ensures ReadNumber(a + b) == if Number(a) < TWO63 then Some(Number(a)) else None
  {
    LeadingDigits(a, b);
    assert (a + b)[..|a|] == a;
    assert (a + b)[0] == a[0];
  }

  /** Behind a sign the number is negative. */
  lemma ReadSigned(a: string, b: string)
    requires AllDigits(a) && (b == [] || !IsDigit(b[0]))
    ensures ReadNumber("-" + a + b) == if a != [] && Number(a) <= TWO63 then Some(0 - Number(a)) else None
  {
    hide Number, Leading;
    LeadingDigits(a, b);
    var s := "-" + a + b;
    assert s[1..] == a + b && (a + b)[..|a|] == a && s[0] == '-';
  }

  lemma ReadNothing(s: string)
    requires s == [] || (!IsDigit(s[0]) && s[0] != '-')
    ensures ReadNumber(s).None?
  {
    LeadingDigits([], s);
    assert [] + s == s;
  }

  lemma {:induction false} CountJoined(a: string, b: string, c: char)
    ensures Count(a + b, c) == Count(a, c) + Count(b, c)
    decreases |b|
  {
    if b == [] {
      assert a + b == a;
    } else {
      assert (a + b)[..|a + b| - 1] == a + b[..|b| - 1];
      CountJoined(a, b[..|b| - 1], c);
    }
  }

  lemma {:induction false} CountDigits(a: string, c: char)
    requires AllDigits(a) && !IsDigit(c)
    ensures Count(a, c) == 0
  {
    if a != [] { CountDigits(a[..|a| - 1], c); }
  }

  lemma {:induction false} FindJoined(a: string, b: string, c: char)
    requires forall i :: 0 <= i < |a| ==> a[i] != c
    ensures Find(a + b, c) == |a| + Find(b, c)
    decreases |a|
  {
    if a == [] {
      assert a + b == b;
    } else {
      assert (a + b)[1..] == a[1..] + b;
      FindJoined(a[1..], b, c);
    }
  }

  /** A sign or none, digits, and a point with more digits or none. */
  function Spelled(negative: bool, whole: string, fraction: Option<string>): string {
    (if negative then "-" else "") + (whole + match fraction case None => "" case Some(f) => "." + f)
  }

  lemma SpelledCounts(negative: bool, whole: string, fraction: Option<string>)
    requires AllDigits(whole) && (fraction.Some? ==> AllDigits(fraction.value))
    ensures var s := Spelled(negative, whole, fraction);
      Readable(s) && (Count(s, '-') == 1 <==> negative)
  {
    var sign := if negative then "-" else "";
    var tail := match fraction case None => "" case Some(f) => "." + f;
    forall c | c == '-' || c == '.' ensures Count(Spelled(negative, whole, fraction), c) ==
        (if negative && c == '-' then 1 else 0) + (if fraction.Some? && c == '.' then 1 else 0) {
      CountJoined(sign, whole + tail, c);
      CountJoined(whole, tail, c);
      CountDigits(whole, c);
      CountOne(sign, c);
      if fraction.Some? {
        CountJoined(".", fraction.value, c);
        CountDigits(fraction.value, c);
        CountOne(".", c);
      }
    }
  }

  lemma CountOne(s: string, c: char)
    requires |s| <= 1
    ensures Count(s, c) == if s == [c] then 1 else 0
  {
    if s != [] { assert s[..0] == []; }
  }

  lemma SpelledFind(negative: bool, whole: string, fraction: Option<string>)
    requires AllDigits(whole)
    ensures var s := Spelled(negative, whole, fraction);
      Find(s, '.') == (if negative then 1 else 0) + |whole|
  {
    var sign := if negative then "-" else "";
    var tail := match fraction case None => "" case Some(f) => "." + f;
    FindJoined(sign, whole + tail, '.');
    FindJoined(whole, tail, '.');
  }

  lemma SpelledWhole(negative: bool, whole: string, fraction: Option<string>, precision: nat)
    requires AllDigits(whole) && (fraction.Some? ==> AllDigits(fraction.value)) && (negative ==> whole != [])
    ensures var n := Number(whole);
      WholePart(Spelled(negative, whole, fraction), precision) ==
        if n < TWO63 then InRange(n * Pow10(precision)) else None
  {
    if whole == [] {
      SpelledFind(negative, whole, fraction);
      SpelledCounts(negative, whole, fraction);
      return;
    }
    hide Count, Find, Number, Leading, ReadNumber, Pow10;
    var s := Spelled(negative, whole, fraction);
    SpelledCounts(negative, whole, fraction);
    SpelledFind(negative, whole, fraction);
    var tail := match fraction case None => "" case Some(f) => "." + f;
    var start := if negative then 1 else 0;
    var lhs := Substring(s, start, Find(s, '.'));
    if negative && fraction.Some? {
      assert lhs == whole + ".";
      ReadDigits(whole, ".");
    } else {
      assert lhs == whole + "";
      ReadDigits(whole, "");
    }
  }

  function Zeros(n: nat): (r: string)
    ensures |r| == n && AllDigits(r)
  {
    seq(n, i => '0')
  }

  /** Zeros are added at the end until the string is long enough. */
  lemma {:induction false} PaddedExact(s: string, n: nat)
    requires |s| <= n
    ensures Padded(s, n) == s + Zeros(n - |s|)
    decreases n - |s|
  {
    if |s| < n {
      PaddedExact(s + "0", n);
      assert s + "0" + Zeros(n - |s| - 1) == s + Zeros(n - |s|);
    } else {
      assert s + Zeros(0) == s;
    }
  }

  lemma {:induction false} NumberZeros(s: string, k: nat)
    requires AllDigits(s)
    ensures AllDigits(s + Zeros(k)) && Number(s + Zeros(k)) == Number(s) * Pow10(k)
    decreases k
  {
    var t := s + Zeros(k);
    if k == 0 {
      assert t == s;
    } else {
      assert t[..|t| - 1] == s + Zeros(k - 1);
      NumberZeros(s, k - 1);
    }
  }

  lemma {:induction false} NumberBound(s: string)
    requires AllDigits(s)
    ensures Number(s) < Pow10(|s|)
  {
    if s != [] { NumberBound(s[..|s| - 1]); }
  }

  lemma {:induction false} Pow10Grows(p: nat, q: nat)
    requires p <= q
    ensures Pow10(p) <= Pow10(q)
    decreases q
  {
    if p < q { Pow10Grows(p, q - 1); }
  }

  lemma SmallPower(p: nat)
    requires p < 19
    ensures Pow10(p) <= 1_000_000_000_000_000_000
  {
    Pow10Grows(p, 18);
    assert Pow10(3) == 1000 && Pow10(6) == 1000 * 1000 && Pow10(9) == 1_000_000_000;
    assert Pow10(12) == 1000 * Pow10(9) && Pow10(15) == 1000 * Pow10(12) && Pow10(18) == 1000 * Pow10(15);
  }

  lemma SpelledFraction(negative: bool, whole: string, f: string, precision: nat)
    requires AllDigits(whole) && AllDigits(f) && precision < 19
    ensures FractionPart(Spelled(negative, whole, Some(f)), precision) ==
      if |f| > precision then None else Some(Number(f) * Pow10(precision - |f|))
  {
    SpelledFind(negative, whole, Some(f));
    var s := Spelled(negative, whole, Some(f));
    assert s[Find(s, '.') + 1..] == f;
    if 0 < precision && |f| <= precision {
      hide Number, Leading, ReadNumber, Find;
      var t := Padded(f, precision);
      PaddedExact(f, precision);
      NumberZeros(f, precision - |f|);
      NumberBound(t);
      SmallPower(precision);
      assert t + "" == t;
      ReadDigits(t, "");
    }
  }

  /** What a decimal number means: so many smallest units, unless it has too many decimals or is too much. */
  lemma SpelledMeaning(negative: bool, whole: string, fraction: Option<string>, precision: nat)
    requires precision < 19 && AllDigits(whole) && (fraction.Some? ==> AllDigits(fraction.value))
    requires negative ==> whole != []
    ensures var places := if fraction.Some? then |fraction.value| else 0;
      Meaning(Spelled(negative, whole, fraction), precision) ==
      if places > precision then None
      else
        var units := Number(whole) * Pow10(precision)
          + if fraction.Some? then Number(fraction.value) * Pow10(precision - places) else 0;
        if units > MAX_SUPPLY then None else Some(if negative then 0 - units else units)
  {
    hide WholePart, FractionPart, Readable, Count, Number, Pow10;
    SpelledCounts(negative, whole, fraction);
    SpelledWhole(negative, whole, fraction, precision);
    Times(1, Pow10(precision), Number(whole));
    match fraction
    case None => NoFraction(negative, whole, precision);
    case Some(f) =>
      SpelledFraction(negative, whole, f, precision);
      if |f| <= precision { Times(0, Number(f), Pow10(precision - |f|)); }
  }

  /** The printed amount, taken apart. */
  lemma WrittenIs(negative: bool, whole: nat, decimals: nat, scale: nat)
    requires negative ==> whole > 0 || decimals > 0
    ensures Written(negative, whole, decimals, scale) ==
      Spelled(negative, Digits(whole), if decimals == 0 then None else Some(Digits(scale + decimals)[1..]))
  {
    hide Digits;
    if whole > 0 { NotZero(whole); } else { ZeroDigits(); }
    if decimals > 0 {
      var f := Digits(scale + decimals)[1..];
      assert "" + (Digits(whole) + ("." + f)) == Digits(whole) + "." + f;
      assert "-" + (Digits(whole) + ("." + f)) == "-" + Digits(whole) + "." + f;
    }
  }

  lemma ZeroDigits()
    ensures Digits(0) == "0"
  {
  }

  lemma NotZero(n: nat)
    requires n > 0
    ensures "-" + Digits(n) != "0" && Digits(n) != "0"
  {
    DigitsBack(n);
    DigitsBack(0);
    assert Digits(0) == "0";
  }

  /** Reading a printed amount gives the amount back, for every precision the program knows. */
  lemma RoundTrip(x: int, precision: nat)
    requires precision < 19 && Abs(x) <= MAX_SUPPLY
    ensures Meaning(Printed(x, precision), precision) == Some(x)
  {
    hide WholePart, FractionPart, Readable, Count, Digits, Number, Pow10, Written;
    var scale := Pow10(precision);
    var whole, decimals := Div(Abs(x), scale), Abs(x) % scale;
    Quotient(Abs(x), scale);
    Times(1, scale, whole);
    WrittenIs(x < 0, whole, decimals, scale);
    DigitsBack(whole);
    PaddedDigits(precision, decimals);
    var fraction := if decimals == 0 then None else Some(Digits(scale + decimals)[1..]);
    SpelledCounts(x < 0, Digits(whole), fraction);
    SpelledWhole(x < 0, Digits(whole), fraction, precision);
    if decimals == 0 {
      NoFraction(x < 0, Digits(whole), precision);
    } else {
      SpelledFraction(x < 0, Digits(whole), fraction.value, precision);
      OneUnit();
    }
  }

  lemma NoFraction(negative: bool, whole: string, precision: nat)
    requires AllDigits(whole)
    ensures FractionPart(Spelled(negative, whole, None), precision) == Some(0)
  {
    SpelledFind(negative, whole, None);
  }

  lemma OneUnit()
    ensures Pow10(0) == 1
  {
  }

  /** Looks at every character: whether all of them may be there, and whether a sign and a point are. */
  method Scan(s: string) returns (ok: bool, negative: bool, decimal: bool)
    ensures ok <==> Readable(s)
    ensures ok ==> (negative <==> Count(s, '-') == 1) && (decimal <==> Count(s, '.') == 1)
    ensures ok ==> (negative ==> s != []) && Count(s, '-') <= 1
  {
    negative, decimal := false, false;
    var i := 0;
    while i < |s|
      invariant i <= |s| && (forall k :: 0 <= k < i ==> IsDigit(s[k]) || s[k] == '-' || s[k] == '.')
      invariant Count(s[..i], '-') == (if negative then 1 else 0) && Count(s[..i], '.') == (if decimal then 1 else 0)
    {
      assert s[..i + 1][..i] == s[..i];
      if IsDigit(s[i]) {
      } else if s[i] == '-' && !negative {
        negative := true;
      } else if s[i] == '.' && !decimal {
        decimal := true;
      } else {
        Unreadable(s, i);
        return false, negative, decimal;
      }
      i := i + 1;
    }
    assert s[..i] == s;
    ok := true;
  }

  /** Reads an amount, part by part. */
  method AmountFromString(s: string, precision: nat) returns (r: Option<int>)
    ensures r == Meaning(s, precision)
  {
    hide Pow10, Number, Leading, ReadNumber, Find, Count;
    var ok, negative, decimal := Scan(s);
    if !ok || precision >= 19 {
      return None;
    }
    PointThere(s);
    var satoshis := 0;
    var point := Find(s, '.');
    var lhs := Substring(s, if negative then 1 else 0, point);
    if lhs != [] {
      var n := ReadNumber(lhs);
      if n.None? || InRange(n.value * Pow10(precision)).None? {
        return None;
      }
      satoshis := n.value * Pow10(precision);
    }
    if decimal {
      var rhs := s[point + 1..];
      if |rhs| > precision {
        return None;
      }
      rhs := PadRight(rhs, precision);
      if rhs != [] {
        var n := ReadNumber(rhs);
        if n.None? || InRange(satoshis + n.value).None? {
          return None;
        }
        satoshis := satoshis + n.value;
      }
    }
    if satoshis > MAX_SUPPLY {
      return None;
    }
    r := InRange(if negative then 0 - satoshis else satoshis);
  }

  method PadRight(s: string, n: nat) returns (r: string)
    ensures r == Padded(s, n)
  {
    r := s;
    while |r| < n
      invariant Padded(r, n) == Padded(s, n)
      decreases n - |r|
    {
      r := r + "0";
    }
  }

  lemma {:induction false} CountGrows(s: string, i: nat, c: char)
    requires i <= |s|
    ensures Count(s[..i], c) <= Count(s, c)
    decreases |s|
  {
    if i < |s| {
      assert s[..|s| - 1][..i] == s[..i];
      CountGrows(s[..|s| - 1], i, c);
    } else {
      assert s[..i] == s;
    }
  }

  /** A character out of place makes the string unreadable. */
  lemma Unreadable(s: string, i: nat)
    requires i < |s| && !IsDigit(s[i]) && ((s[i] != '-' && s[i] != '.') || Count(s[..i], s[i]) >= 1)
    ensures !Readable(s)
  {
    if s[i] == '-' || s[i] == '.' {
      assert s[..i + 1][..i] == s[..i];
      CountGrows(s, i + 1, s[i]);
    }
  }

  lemma {:induction false} PointThere(s: string)
    ensures Readable(s) ==> (Count(s, '.') == 1 <==> Find(s, '.') < |s|)
    ensures Count(s, '-') > 0 ==> |s| > 0
  {
    var i := Find(s, '.');
    if i < |s| {
      assert s[..i + 1][..i] == s[..i];
      CountGrows(s, i + 1, '.');
    } else {
      NoneCounted(s, '.');
    }
  }

  lemma {:induction false} NoneCounted(s: string, c: char)
    requires forall k :: 0 <= k < |s| ==> s[k] != c
    ensures Count(s, c) == 0
  {
    if s != [] { NoneCounted(s[..|s| - 1], c); }
  }
}
