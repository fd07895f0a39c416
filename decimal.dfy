/** Decimal text of the card numbers: Python's `str(n)` and `f"{n:0{w}d}"`,
    and a parser that reads such text back, as the partner of both. */
module Decimal {
  import opened Wrappers

  function Max(a: int, b: int): int { if a < b then b else a }

  predicate IsDigit(c: char) { '0' <= c <= '9' }

  predicate AllDigits(s: string) { forall i :: 0 <= i < |s| ==> IsDigit(s[i]) }

  /** A non-empty run of decimal digits. */
  predicate IsNumeral(s: string) { |s| > 0 && AllDigits(s) }

  function DigitValue(c: char): nat
    requires IsDigit(c)
  {
    c as int - '0' as int
  }

  function DigitChar(d: nat): (c: char)
    requires d < 10
    ensures IsDigit(c) && DigitValue(c) == d
  {
    (d + '0' as int) as char
  }

  function Pow10(k: nat): (p: nat)
    ensures p >= 1
  {
    if k == 0 then 1 else 10 * Pow10(k - 1)
  }

  /** `k` copies of '0'. */
  function Zeros(k: nat): (z: string)
    ensures |z| == k && forall i :: 0 <= i < k ==> z[i] == '0'
  {
    seq(k, _ => '0')
  }

  /** The decimal digits of a non-negative number, most significant first,
      without leading zeros: what `str(n)` prints for `n >= 0`. */
  function Digits(n: nat): (s: string)
    ensures IsNumeral(s)
    ensures (s[0] == '0') == (n == 0)
    decreases n
  {
    if n < 10 then [DigitChar(n)] else Digits(n / 10) + [DigitChar(n % 10)]
  }

  /** Python's `str(n)` for an int. */
  function Str(n: int): string
  {
    if n < 0 then "-" + Digits(-n) else Digits(n)
  }

  /** Left-pads `s` with '0' up to `width` characters (no change if already that long). */
  function PadZeros(s: string, width: int): (r: string)
    ensures |r| == Max(width, |s|)
  {
    if |s| >= width then s else Zeros(width - |s|) + s
  }

  /** Python's `f"{n:0{width}d}"`: the '=' alignment of the '0' flag puts the
      padding after the sign, and the sign counts toward the width. */
  function FormatInt(n: int, width: nat): string
  {
    if n < 0 then "-" + PadZeros(Digits(-n), width - 1) else PadZeros(Digits(n), width)
  }

  /** The label is `width` characters or `str(n)`'s length, whichever is more:
      digits only, after a '-' for a negative number. */
  lemma FormatIntShape(n: int, width: nat)
    ensures var r := FormatInt(n, width);
      && |r| == Max(width, |Str(n)|)
      && (n >= 0 ==> IsNumeral(r))
      && (n < 0 ==> r[0] == '-' && IsNumeral(r[1..]))
  {
    var m := if n < 0 then -n else n;
    var w := if n < 0 then width - 1 else width;
    var p := PadZeros(Digits(m), w);
    if |Digits(m)| < w {
      assert p == Zeros(w - |Digits(m)|) + Digits(m);
      assert forall i :: 0 <= i < |p| ==> IsDigit(p[i]) by {
        forall i | 0 <= i < |p| ensures IsDigit(p[i]) {
          if i >= w - |Digits(m)| { assert p[i] == Digits(m)[i - (w - |Digits(m)|)]; }
        }
      }
    }
    if n < 0 {
      assert FormatInt(n, width)[1..] == p;
    }
  }

  /** The value of a run of digits, most significant first. */
  function Value(s: string): nat
    requires AllDigits(s)
    decreases |s|
  {
    if s == [] then 0 else DigitValue(s[0]) * Pow10(|s| - 1) + Value(s[1..])
  }

  /** Reads back an optionally '-'-signed numeral; leading zeros are allowed. */
  function ParseDecimal(s: string): Option<int>
  {
    if |s| > 0 && s[0] == '-' then
      if IsNumeral(s[1..]) then Some(-(Value(s[1..]) as int)) else None
    else if IsNumeral(s) then Some(Value(s))
    else None
  }

  lemma MulLeq(a: int, b: int, c: nat)
    requires a <= b
    ensures a * c <= b * c
  {
    assert b * c - a * c == (b - a) * c;
  }

  lemma ShiftDigit(d: int, p: int, v: int, c: int)
    ensures d * (10 * p) + (10 * v + c) == 10 * (d * p + v) + c
  {
    assert d * (10 * p) == 10 * (d * p);
  }

  lemma {:induction false} ValueBound(s: string)
    requires AllDigits(s)
    ensures Value(s) < Pow10(|s|)
  {
    if s != [] {
      ValueBound(s[1..]);
      var d, p := DigitValue(s[0]), Pow10(|s| - 1);
      MulLeq(d, 9, p);
      assert Value(s) == d * p + Value(s[1..]);
      assert Pow10(|s|) == 10 * p;
    }
  }

  /** Appending a digit multiplies by ten and adds it. */
  lemma {:induction false} ValueSnoc(s: string, c: char)
    requires AllDigits(s) && IsDigit(c)
    ensures AllDigits(s + [c])
    ensures Value(s + [c]) == 10 * Value(s) + DigitValue(c)
  {
    var t := s + [c];
    assert AllDigits(t);
    if s == [] {
      assert t == [c];
      assert Value(t) == DigitValue(c) * Pow10(0) + Value([]);
    } else {
      assert t[0] == s[0];
      assert t[1..] == s[1..] + [c];
      ValueSnoc(s[1..], c);
      var d, p, v := DigitValue(s[0]), Pow10(|s| - 1), Value(s[1..]);
      assert Pow10(|t| - 1) == 10 * p;
      assert Value(t) == d * (10 * p) + (10 * v + DigitValue(c));
      ShiftDigit(d, p, v, DigitValue(c));
    }
  }

  /** Reading the digits of `n` gives back `n`. */
  lemma {:induction false} ValueOfDigits(n: nat)
    ensures Value(Digits(n)) == n
    decreases n
  {
    if n >= 10 {
      ValueOfDigits(n / 10);
      ValueSnoc(Digits(n / 10), DigitChar(n % 10));
    }
  }

  /** Leading zeros do not change a value. */
  lemma {:induction false} ValueLeadingZeros(k: nat, s: string)
    requires AllDigits(s)
    ensures AllDigits(Zeros(k) + s) && Value(Zeros(k) + s) == Value(s)
  {
    if k > 0 {
      var t := Zeros(k) + s;
      assert t[0] == '0';
      assert t[1..] == Zeros(k - 1) + s;
      ValueLeadingZeros(k - 1, s);
      assert Value(t) == 0 * Pow10(|t| - 1) + Value(t[1..]);
    } else {
      assert Zeros(k) + s == s;
    }
  }

  /** `Digits(n)` has exactly as many characters as `n` has decimal digits. */
  lemma DigitsCount(n: nat)
    ensures n < Pow10(|Digits(n)|)
    ensures n > 0 ==> Pow10(|Digits(n)| - 1) <= n
  {
    var s := Digits(n);
    ValueOfDigits(n);
    ValueBound(s);
    if n > 0 {
      var d, p := DigitValue(s[0]), Pow10(|s| - 1);
      assert d >= 1;
      MulLeq(1, d, p);
      assert Value(s) == d * p + Value(s[1..]);
    }
  }

  lemma {:induction false} Pow10Mono(a: nat, b: nat)
    requires a <= b
    ensures Pow10(a) <= Pow10(b)
    decreases b
  {
    if a < b { Pow10Mono(a, b - 1); }
  }

  /** A number below `10^width` padded to `width >= 1` is exactly `width` digits
      worth that number: the padding never overflows the width. */
  lemma FormatIntWidth(n: int, width: nat)
    requires width >= 1 && 0 <= n < Pow10(width)
    ensures |FormatInt(n, width)| == width && AllDigits(FormatInt(n, width))
    ensures Value(FormatInt(n, width)) == n
  {
    FormatIntShape(n, width);
    DigitsCount(n);
    if |Digits(n)| > width {
      Pow10Mono(width, |Digits(n)| - 1);
      assert false;
    }
    FormatIntRoundTrip(n, width);
  }

  /** The zero-padded label reads back as the number it shows. */
  lemma FormatIntRoundTrip(n: int, width: nat)
    ensures ParseDecimal(FormatInt(n, width)) == Some(n)
  {
    var m := if n < 0 then -n else n;
    var w := if n < 0 then width - 1 else width;
    var d := Digits(m);
    var p := PadZeros(d, w);
    ValueOfDigits(m);
    if |d| < w {
      ValueLeadingZeros(w - |d|, d);
    }
    assert Value(p) == m;
    if n < 0 {
      assert FormatInt(n, width)[1..] == p;
    }
  }

  /** Different numbers never get the same label. */
  lemma FormatIntInjective(a: int, b: int, width: nat)
    requires FormatInt(a, width) == FormatInt(b, width)
    ensures a == b
  {
    FormatIntRoundTrip(a, width);
    FormatIntRoundTrip(b, width);
  }

  /** `str(n)` is the same text as the zero-width format. */
  lemma StrRoundTrip(n: int)
    ensures Str(n) == FormatInt(n, 0)
    ensures ParseDecimal(Str(n)) == Some(n)
  {
    FormatIntRoundTrip(n, 0);
  }
}
