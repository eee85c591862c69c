/**
 Printing token amounts: `asset_amount_to_string`, over 64-bit integers so that every intermediate value is
 checked against overflow, with a reader of such texts that the printer is proved to invert.
 */
module Amounts {
  import opened Common

  newtype Int64 = x: int | -0x8000_0000_0000_0000 <= x < 0x8000_0000_0000_0000

  const MIN_INT64: Int64 := -0x8000_0000_0000_0000

  /** The most decimals an EOS symbol may have. */
  const MAX_DECIMALS: nat := 18

  function Pow10(d: nat): (p: nat)
    ensures p > 0
  {
    if d == 0 then 1 else 10 * Pow10(d - 1)
  }

  lemma {:induction false} Pow10Monotone(d: nat, e: nat)
    requires d <= e
    ensures Pow10(d) <= Pow10(e)
  {
    if d < e {
      Pow10Monotone(d, e - 1);
    }
  }

  lemma Pow10Fits(d: nat)
    requires d <= MAX_DECIMALS
    ensures Pow10(d) <= 1_000_000_000_000_000_000
  {
    Pow10Monotone(d, 18);
    assert Pow10(6) == 1_000_000;
    assert Pow10(12) == 1_000_000_000_000 by { assert Pow10(9) == 1_000_000_000; }
    assert Pow10(18) == 1_000_000_000_000_000_000 by { assert Pow10(15) == 1_000_000_000_000_000; }
  }

  function Digit(n: nat): char
    requires n < 10
  {
    '0' + n as char
  }

  /** `fc::to_string` of a non-negative number. */
  function Digits(n: nat): (s: string)
    ensures |s| > 0
  {
    if n < 10 then [Digit(n)] else Digits(n / 10) + [Digit(n % 10)]
  }

  function Precision(decimals: nat): (p: Int64)
    requires decimals <= MAX_DECIMALS
    ensures p as int == Pow10(decimals)
  {
    Pow10Fits(decimals);
    Pow10(decimals) as Int64
  }

  /** 64-bit division and remainder; the operands are non-negative, so truncating is flooring. */
  function Quotient(a: Int64, b: Int64): (q: Int64)
    requires a >= 0 && b > 0
    ensures q as int == Div(a as nat, b as nat)
  {
    Div(a as nat, b as nat) as Int64
  }

  function Remainder(a: Int64, b: Int64): (r: Int64)
    requires a >= 0 && b > 0
    ensures r as int == Mod(a as nat, b as nat)
  {
    Mod(a as nat, b as nat) as Int64
  }

  /** `asset_amount_to_string`. The absolute value of the least 64-bit integer does not exist. */
  function AmountToString(amount: Int64, decimals: nat): string
    requires amount != MIN_INT64 && decimals <= MAX_DECIMALS
  {
    var sign := if amount < 0 then "-" else "";
    var absAmount: Int64 := if amount < 0 then -amount else amount;
    var precision := Precision(decimals);
    sign + (Digits(Quotient(absAmount, precision) as nat)
            + if decimals == 0 then "" else "." + FractionText(precision, Remainder(absAmount, precision), decimals))
  }

  /** The precision and the fraction are added as 64-bit integers, printed, and the first digit erased. */
  function FractionText(precision: Int64, fract: Int64, decimals: nat): string
    requires decimals <= MAX_DECIMALS && precision == Precision(decimals) && 0 <= fract < precision
  {
    Pow10Fits(decimals);
    Digits((precision + fract) as nat)[1..]
  }

  // ---------------------------------------------------------------------------------------------
  // Reading an amount back
  // ---------------------------------------------------------------------------------------------

  predicate IsDigit(c: char) {
    '0' <= c <= '9'
  }

  predicate AllDigits(s: string) {
    forall i :: 0 <= i < |s| ==> IsDigit(s[i])
  }

  function DigitValue(c: char): nat
    requires IsDigit(c)
  {
    c as nat - '0' as nat
  }

  function NumberOf(s: string): nat
    requires AllDigits(s)
  {
    if s == "" then 0 else 10 * NumberOf(s[..|s| - 1]) + DigitValue(s[|s| - 1])
  }

  /** An unsigned text with exactly `decimals` digits after its point, scaled to an integer. */
  function ParseUnsigned(s: string, decimals: nat): Option<nat> {
    if decimals == 0 then
      if |s| > 0 && AllDigits(s) then Some(NumberOf(s)) else None
    else if |s| < decimals + 2 || s[|s| - decimals - 1] != '.' then None
    else
      var whole, fraction := s[..|s| - decimals - 1], s[|s| - decimals..];
      if AllDigits(whole) && AllDigits(fraction)
      then Some(NumberOf(whole) * Pow10(decimals) + NumberOf(fraction)) else None
  }

  function Negate(n: Option<nat>): Option<int> {
    match n
    case None => None
    case Some(m) => Some(0 - m)
  }

  function ParseAmount(s: string, decimals: nat): Option<int> {
    if s != "" && s[0] == '-' then Negate(ParseUnsigned(s[1..], decimals)) else ParseUnsigned(s, decimals)
  }

  lemma {:induction false} DigitsReadBack(n: nat)
    ensures AllDigits(Digits(n)) && NumberOf(Digits(n)) == n
  {
    if n >= 10 {
      DigitsReadBack(n / 10);
      var s := Digits(n);
      assert s[..|s| - 1] == Digits(n / 10);
    } else {
      assert Digits(n)[..0] == "";
    }
  }

  /** `n` in exactly `d` digits. */
  function Padded(n: nat, d: nat): (s: string)
    ensures |s| == d
  {
    if d == 0 then "" else Padded(n / 10, d - 1) + [Digit(n % 10)]
  }

  lemma {:induction false} PaddedReadBack(n: nat, d: nat)
    requires n < Pow10(d)
    ensures AllDigits(Padded(n, d)) && NumberOf(Padded(n, d)) == n
  {
    if d > 0 {
      PaddedReadBack(n / 10, d - 1);
      assert Padded(n, d)[..d - 1] == Padded(n / 10, d - 1);
    }
  }

  /** Adding the precision to the fraction and dropping the leading one pads it with zeros. */
  lemma {:induction false} LeadingOne(n: nat, d: nat)
    requires n < Pow10(d)
    ensures Digits(Pow10(d) + n) == "1" + Padded(n, d)
  {
    if d > 0 {
      LeadingOne(n / 10, d - 1);
      var m := Pow10(d) + n;
      assert m == 10 * Pow10(d - 1) + n;
      assert m / 10 == Pow10(d - 1) + n / 10 && m % 10 == n % 10;
      assert "1" + Padded(n / 10, d - 1) + [Digit(n % 10)] == "1" + Padded(n, d);
    } else {
      assert Digits(1) == "1";
    }
  }

  function Magnitude(amount: Int64): nat
    requires amount != MIN_INT64
  {
    if amount < 0 then -(amount as int) else amount as int
  }

  lemma FractionIsPadded(fract: Int64, decimals: nat)
    requires decimals <= MAX_DECIMALS && 0 <= fract < Precision(decimals)
    ensures FractionText(Precision(decimals), fract, decimals) == Padded(fract as nat, decimals)
  {
    LeadingOne(fract as nat, decimals);
    Pow10Fits(decimals);
    assert (Precision(decimals) + fract) as nat == Pow10(decimals) + fract as nat;
  }

  /** No intermediate overflows: the absolute value and the precision with the fraction added fit. */
  lemma IntermediatesFit(amount: Int64, decimals: nat)
    requires amount != MIN_INT64 && decimals <= MAX_DECIMALS
    ensures 0 <= Magnitude(amount) < 0x8000_0000_0000_0000
    ensures Pow10(decimals) + Mod(Magnitude(amount), Pow10(decimals)) < 2_000_000_000_000_000_000
            < 0x8000_0000_0000_0000
  {
    Pow10Fits(decimals);
  }

  /** The whole part and a fraction of exactly `decimals` digits. */
  function Body(m: nat, decimals: nat): string {
    Digits(Div(m, Pow10(decimals))) + if decimals == 0 then "" else "." + Padded(Mod(m, Pow10(decimals)), decimals)
  }

  /** The printed text: a minus sign exactly for negative amounts, the whole part, the padded fraction. */
  lemma Shape(amount: Int64, decimals: nat)
    requires amount != MIN_INT64 && decimals <= MAX_DECIMALS
    ensures AmountToString(amount, decimals) == (if amount < 0 then "-" else "") + Body(Magnitude(amount), decimals)
  {
    var absAmount: Int64 := if amount < 0 then -amount else amount;
    var fract := Remainder(absAmount, Precision(decimals));
    assert absAmount as int == Magnitude(amount);
    FractionIsPadded(fract, decimals);
  }

  lemma PartsReadBack(whole: string, fraction: string, decimals: nat)
    requires whole != "" && AllDigits(whole) && AllDigits(fraction) && |fraction| == decimals > 0
    ensures ParseUnsigned(whole + ("." + fraction), decimals)
            == Some(NumberOf(whole) * Pow10(decimals) + NumberOf(fraction))
  {
    hide NumberOf, Pow10, AllDigits;
    PointSplits(whole, fraction);
  }

  lemma PointSplits(whole: string, fraction: string)
    ensures var s, n := whole + ("." + fraction), |whole|;
            |s| == n + 1 + |fraction| && s[n] == '.' && s[..n] == whole && s[n + 1..] == fraction
  {
  }

  lemma UnsignedReadBack(m: nat, decimals: nat)
    ensures ParseUnsigned(Body(m, decimals), decimals) == Some(m)
    ensures IsDigit(Body(m, decimals)[0])
  {
    var p := Pow10(decimals);
    DigitsReadBack(Div(m, p));
    PaddedReadBack(Mod(m, p), decimals);
    var whole, s := Digits(Div(m, p)), Body(m, decimals);
    assert s[0] == whole[0];
    if decimals == 0 {
      assert s == whole && p == 1;
    } else {
      PartsReadBack(whole, Padded(Mod(m, p), decimals), decimals);
    }
  }

  /** Printing and reading back gives the amount, for every amount but the least and 0 to 18 decimals; a
      minus sign is printed exactly for negative amounts, so never for zero. */
  lemma PrintedAmountReadsBack(amount: Int64, decimals: nat)
    requires amount != MIN_INT64 && decimals <= MAX_DECIMALS
    ensures ParseAmount(AmountToString(amount, decimals), decimals) == Some(amount as int)
    ensures AmountToString(amount, decimals) != "" && (AmountToString(amount, decimals)[0] == '-' <==> amount < 0)
  {
    var body, text := Body(Magnitude(amount), decimals), AmountToString(amount, decimals);
    UnsignedReadBack(Magnitude(amount), decimals);
    assert text == (if amount < 0 then "-" else "") + body by { Shape(amount, decimals); }
    if amount < 0 {
      assert text[1..] == body;
    } else {
      assert text == body;
    }
  }

  /** At fixed decimals different amounts print differently. */
  lemma PrintingIsInjective(a: Int64, b: Int64, decimals: nat)
    requires a != MIN_INT64 && b != MIN_INT64 && decimals <= MAX_DECIMALS
    requires AmountToString(a, decimals) == AmountToString(b, decimals)
    ensures a == b
  {
    PrintedAmountReadsBack(a, decimals);
    PrintedAmountReadsBack(b, decimals);
  }

  // ---------------------------------------------------------------------------------------------
  // Only one text
  // ---------------------------------------------------------------------------------------------

  /** A whole number without leading zeros. */
  predicate CanonicalWhole(w: string) {
    w != "" && AllDigits(w) && (w[0] == '0' ==> |w| == 1)
  }

  predicate CanonicalBody(s: string, decimals: nat) {
    if decimals == 0 then CanonicalWhole(s)
    else
      && |s| >= decimals + 2 && s[|s| - decimals - 1] == '.'
      && CanonicalWhole(s[..|s| - decimals - 1]) && AllDigits(s[|s| - decimals..])
  }

  /** The usual way to write an amount: no leading zeros, exactly `decimals` digits after the point, and a minus
      only before something that is not zero. */
  predicate Canonical(t: string, decimals: nat) {
    if t != "" && t[0] == '-' then CanonicalBody(t[1..], decimals) && ParseUnsigned(t[1..], decimals) != Some(0)
    else CanonicalBody(t, decimals)
  }

  lemma {:induction false} NumberBelow(s: string)
    requires AllDigits(s)
    ensures NumberOf(s) < Pow10(|s|)
  {
    if s != "" {
      NumberBelow(s[..|s| - 1]);
    }
  }

  lemma {:induction false} NumberAbove(s: string)
    requires AllDigits(s) && s != "" && s[0] != '0'
    ensures NumberOf(s) > 0
  {
    if |s| > 1 {
      NumberAbove(s[..|s| - 1]);
    }
  }

  lemma DigitOfValue(c: char)
    requires IsDigit(c)
    ensures Digit(DigitValue(c)) == c
  {
  }

  lemma {:induction false} DigitsUnique(w: string)
    requires CanonicalWhole(w)
    ensures w == Digits(NumberOf(w))
  {
    var n := |w| - 1;
    var pre := w[..n];
    DigitOfValue(w[n]);
    assert w == pre + [w[n]];
    if n == 0 {
      assert NumberOf(pre) == 0;
    } else {
      DigitsUnique(pre);
      NumberAbove(pre);
      var v := DigitValue(w[n]);
      assert NumberOf(w) == 10 * NumberOf(pre) + v;
      assert NumberOf(w) / 10 == NumberOf(pre) && NumberOf(w) % 10 == v;
    }
  }

  lemma {:induction false} PaddedUnique(f: string)
    requires AllDigits(f)
    ensures f == Padded(NumberOf(f), |f|)
  {
    if f != "" {
      var n := |f| - 1;
      var pre := f[..n];
      PaddedUnique(pre);
      DigitOfValue(f[n]);
      var v := DigitValue(f[n]);
      assert NumberOf(f) == 10 * NumberOf(pre) + v;
      assert NumberOf(f) / 10 == NumberOf(pre) && NumberOf(f) % 10 == v;
      assert f == pre + [f[n]];
    }
  }

  lemma {:induction false} DigitsCanonical(n: nat)
    ensures CanonicalWhole(Digits(n)) && (n > 0 ==> Digits(n)[0] != '0')
  {
    DigitsReadBack(n);
    if n >= 10 {
      DigitsCanonical(n / 10);
    }
  }

  lemma DivisionUnique(q: nat, r: nat, p: nat)
    requires r < p
    ensures Div(q * p + r, p) == q && Mod(q * p + r, p) == r
  {
    var m := q * p + r;
    var d := Div(m, p);
    assert (d + 1) * p == d * p + p && (q + 1) * p == q * p + p;
    if d < q {
      MulMonotone(d + 1, q, p);
    } else if d > q {
      MulMonotone(q + 1, d, p);
    }
  }

  lemma BodyUnique(s: string, decimals: nat, m: nat)
    requires CanonicalBody(s, decimals) && ParseUnsigned(s, decimals) == Some(m)
    ensures s == Body(m, decimals)
  {
    hide Digits, Padded, NumberOf;
    if decimals == 0 {
      DigitsUnique(s);
      assert m == m * 1 + 0;
      DivisionUnique(m, 0, 1);
      assert Pow10(0) == 1;
      assert Digits(m) + "" == Digits(m);
    } else {
      var whole, fraction := s[..|s| - decimals - 1], s[|s| - decimals..];
      DigitsUnique(whole);
      PaddedUnique(fraction);
      NumberBelow(fraction);
      DivisionUnique(NumberOf(whole), NumberOf(fraction), Pow10(decimals));
      assert s == whole + ("." + fraction);
    }
  }

  lemma BodyCanonical(m: nat, decimals: nat)
    ensures CanonicalBody(Body(m, decimals), decimals)
  {
    var p := Pow10(decimals);
    var whole, s := Digits(Div(m, p)), Body(m, decimals);
    DigitsCanonical(Div(m, p));
    PaddedReadBack(Mod(m, p), decimals);
    if decimals == 0 {
      assert s == whole;
    } else {
      assert s[..|s| - decimals - 1] == whole && s[|s| - decimals..] == Padded(Mod(m, p), decimals);
    }
  }

  lemma PrintedIsCanonical(amount: Int64, decimals: nat)
    requires amount != MIN_INT64 && decimals <= MAX_DECIMALS
    ensures Canonical(AmountToString(amount, decimals), decimals)
  {
    hide AmountToString, Body, CanonicalBody, ParseUnsigned;
    var m := Magnitude(amount);
    var t := AmountToString(amount, decimals);
    Shape(amount, decimals);
    BodyCanonical(m, decimals);
    UnsignedReadBack(m, decimals);
    if amount < 0 {
      assert t[1..] == Body(m, decimals);
    } else {
      assert t == Body(m, decimals);
    }
  }

  lemma CanonicalIsPrinted(amount: Int64, decimals: nat, t: string)
    requires amount != MIN_INT64 && decimals <= MAX_DECIMALS
    requires Canonical(t, decimals) && ParseAmount(t, decimals) == Some(amount as int)
    ensures t == AmountToString(amount, decimals)
  {
    hide AmountToString, Body, CanonicalBody, ParseUnsigned;
    Shape(amount, decimals);
    var m := Magnitude(amount);
    if t != "" && t[0] == '-' {
      BodyUnique(t[1..], decimals, m);
      assert t == "-" + t[1..];
    } else {
      BodyUnique(t, decimals, m);
      assert "" + t == t;
    }
  }

  /** What is printed is the one canonical text that reads as the amount. */
  lemma PrintedExactly(amount: Int64, decimals: nat, t: string)
    requires amount != MIN_INT64 && decimals <= MAX_DECIMALS
    ensures t == AmountToString(amount, decimals) <==>
            Canonical(t, decimals) && ParseAmount(t, decimals) == Some(amount as int)
  {
    hide AmountToString, Canonical, ParseAmount;
    PrintedIsCanonical(amount, decimals);
    PrintedAmountReadsBack(amount, decimals);
    if Canonical(t, decimals) && ParseAmount(t, decimals) == Some(amount as int) {
      CanonicalIsPrinted(amount, decimals, t);
    }
  }
}
