/**
 * Decimal numerals: the base-10 rendering of Go's `strconv.FormatInt(x, 10)`
 * and `fmt`'s `%d`, the zero padding of Go's time layouts ("2006", "01",
 * "02"), and the value of a digit string, which inverts both.
 */
module Decimal {
  import opened Text

  predicate IsDigit(c: char) {
    '0' <= c <= '9'
  }

  predicate AllDigits(s: string) {
    forall i :: 0 <= i < |s| ==> IsDigit(s[i])
  }

  function DigitValue(c: char): (d: nat)
    requires IsDigit(c)
    ensures d < 10
  {
    c as int - '0' as int
  }

  function DigitChar(d: nat): (c: char)
    requires d < 10
    ensures IsDigit(c) && DigitValue(c) == d
  {
    (('0' as int) + d) as char
  }

  function Pow10(k: nat): (p: nat)
    ensures p >= 1
  {
    if k == 0 then 1 else 10 * Pow10(k - 1)
  }

  /** The shortest decimal numeral of `n`: at least one digit, no leading zero. */
  function NatToString(n: nat): (s: string)
    ensures |s| >= 1 && AllDigits(s)
    ensures s[0] == '0' ==> n == 0
    decreases n
  {
    if n < 10 then [DigitChar(n)] else NatToString(n / 10) + [DigitChar(n % 10)]
  }

  /** The number a digit string denotes (leading zeros allowed). */
  function Value(s: string): nat
    requires AllDigits(s)
    decreases |s|
  {
    if s == [] then 0 else Value(s[..|s| - 1]) * 10 + DigitValue(s[|s| - 1])
  }

  lemma {:induction false} ValueBound(s: string)
    requires AllDigits(s)
    ensures Value(s) < Pow10(|s|)
    decreases |s|
  {
    if s != [] {
      ValueBound(s[..|s| - 1]);
    }
  }

  lemma {:induction false} ValueAppend(a: string, b: string)
    requires AllDigits(a) && AllDigits(b)
    ensures AllDigits(a + b)
    ensures Value(a + b) == Value(a) * Pow10(|b|) + Value(b)
    decreases |b|
  {
    if b == [] {
      assert a + b == a;
    } else {
      var b' := b[..|b| - 1];
      assert (a + b)[..|a + b| - 1] == a + b';
      ValueAppend(a, b');
      ShiftDigit(Value(a), Pow10(|b'|), Value(b'), DigitValue(b[|b| - 1]));
    }
  }

  lemma ShiftDigit(va: nat, p: nat, vb: nat, d: nat)
    ensures (va * p + vb) * 10 + d == va * (10 * p) + (vb * 10 + d)
  {
  }

  /** Reading the numeral back gives the number: `Value` inverts `NatToString`. */
  lemma {:induction false} ValueOfNatToString(n: nat)
    ensures Value(NatToString(n)) == n
    decreases n
  {
    if n >= 10 {
      var s := NatToString(n);
      assert s[..|s| - 1] == NatToString(n / 10);
      ValueOfNatToString(n / 10);
    }
  }

  /** A number below 10^w needs at most w digits. */
  lemma {:induction false} NatToStringWidth(n: nat, w: nat)
    requires 0 < w && n < Pow10(w)
    ensures |NatToString(n)| <= w
    decreases n
  {
    if n >= 10 {
      NatToStringWidth(n / 10, w - 1);
    }
  }

  function Zeros(k: nat): (z: string)
    ensures |z| == k && AllDigits(z)
  {
    seq(k, _ => '0')
  }

  lemma {:induction false} ValueOfZeros(k: nat)
    ensures Value(Zeros(k)) == 0
    decreases k
  {
    if k > 0 {
      assert Zeros(k)[..k - 1] == Zeros(k - 1);
      ValueOfZeros(k - 1);
    }
  }

  /** The numeral of `n` left-padded with zeros to at least `w` digits, as Go's
      time layouts print years ("2006", width 4), months and days ("01", "02"). */
  function Pad(n: nat, w: nat): string {
    PadDigits(NatToString(n), w)
  }

  function PadDigits(digits: string, w: nat): string {
    if |digits| >= w then digits else Zeros(w - |digits|) + digits
  }

  /** Padding keeps the digits' value and makes them exactly `w` long
      when they fit. */
  lemma PadDigitsFacts(digits: string, w: nat)
    requires AllDigits(digits)
    ensures AllDigits(PadDigits(digits, w)) && Value(PadDigits(digits, w)) == Value(digits)
    ensures |PadDigits(digits, w)| == if |digits| >= w then |digits| else w
  {
    if |digits| < w {
      ValueAppend(Zeros(w - |digits|), digits);
      ValueOfZeros(w - |digits|);
    }
  }

  /** The padded numeral reads back as `n`, has at least `w` digits, and
      exactly `w` when `n` fits in `w` digits. */
  lemma PadFacts(n: nat, w: nat)
    ensures AllDigits(Pad(n, w)) && Value(Pad(n, w)) == n
    ensures |Pad(n, w)| >= w
    ensures 0 < w && n < Pow10(w) ==> |Pad(n, w)| == w
  {
    ValueOfNatToString(n);
    PadDigitsFacts(NatToString(n), w);
    if 0 < w && n < Pow10(w) {
      NatToStringWidth(n, w);
    }
  }

  /** For numerals of the same length, string order is numeric order. */
  lemma {:induction false} LexLessDigits(a: string, b: string)
    requires AllDigits(a) && AllDigits(b) && |a| == |b|
    ensures LexLess(a, b) <==> Value(a) < Value(b)
    decreases |a|
  {
    if a != [] {
      var a', b' := a[1..], b[1..];
      var p := Pow10(|a'|);
      assert a == [a[0]] + a' && b == [b[0]] + b';
      ValueAppend([a[0]], a');
      ValueAppend([b[0]], b');
      assert Value([a[0]]) == DigitValue(a[0]) && Value([b[0]]) == DigitValue(b[0]) by {
        assert [a[0]][..0] == [] && [b[0]][..0] == [];
      }
      ValueBound(a');
      ValueBound(b');
      LexLessDigits(a', b');
      LeadingDigitOrder(DigitValue(a[0]), Value(a'), DigitValue(b[0]), Value(b'), p);
    }
  }

  lemma LeadingDigitOrder(da: nat, ra: nat, db: nat, rb: nat, p: nat)
    requires ra < p && rb < p
    ensures da * p + ra < db * p + rb <==> da < db || (da == db && ra < rb)
  {
    if da < db {
      assert (da + 1) * p <= db * p;
    } else if db < da {
      assert (db + 1) * p <= da * p;
    }
  }

  /** Go's `strconv.FormatInt(i, 10)` and `fmt`'s `%d`: a minus sign for
      negative numbers, then the numeral of the magnitude. */
  function IntToString(i: int): (s: string)
    ensures SignedNumeral(s)
  {
    if i < 0 then "-" + NatToString(-i) else NatToString(i)
  }

  /** Digits, possibly after one leading minus sign. */
  predicate SignedNumeral(s: string) {
    |s| >= 1 && forall k :: 0 <= k < |s| ==> IsDigit(s[k]) || (k == 0 && s[k] == '-')
  }

  /** Reads a decimal integer with an optional leading minus sign. */
  function ParseInt(s: string): Option<int> {
    if s != [] && AllDigits(s) then Some(Value(s))
    else if |s| >= 2 && s[0] == '-' && AllDigits(s[1..]) then
      var magnitude: int := Value(s[1..]);
      Some(-magnitude)
    else None
  }

  lemma ParseIntToString(i: int)
    ensures ParseInt(IntToString(i)) == Some(i)
  {
    if i < 0 {
      ParseNegative(i);
    } else {
      ParseNatural(i);
    }
  }

  lemma ParseNatural(n: nat)
    ensures ParseInt(NatToString(n)) == Some(n)
  {
    ValueOfNatToString(n);
  }

  lemma ParseNegative(i: int)
    requires i < 0
    ensures ParseInt("-" + NatToString(-i)) == Some(i)
  {
    var n := -i;
    var t := NatToString(n);
    var s := "-" + t;
    assert s[0] == '-' && s[1..] == t;
    assert !AllDigits(s) by {
      assert !IsDigit(s[0]);
    }
    ValueOfNatToString(n);
  }

  lemma IntToStringInjective(i: int, j: int)
    ensures IntToString(i) == IntToString(j) <==> i == j
  {
    ParseIntToString(i);
    ParseIntToString(j);
  }
}
