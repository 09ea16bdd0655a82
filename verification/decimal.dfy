/**
  Decimal rendering of non-negative integers as Python's format mini-language
  does it for `{i:0Wd}`: the digits of `str(i)`, left-padded with `'0'` up to a
  MINIMUM width W, never truncated.
 */
module Decimal {
  import opened Lex

  predicate IsDigit(c: char) {
    '0' <= c <= '9'
  }

  predicate AllDigits(s: string) {
    forall k :: 0 <= k < |s| ==> IsDigit(s[k])
  }

  function DigitValue(c: char): (d: nat)
    requires IsDigit(c)
    ensures d < 10
  {
    c as int - '0' as int
  }

  function DigitChar(d: nat): (c: char)
    requires d < 10
    ensures IsDigit(c) && DigitValue(c) == d
  {
    (d + '0' as int) as char
  }

  /** The number a string of decimal digits denotes; leading zeros count for nothing. */
  function Value(s: string): nat
    requires AllDigits(s)
  {
    if |s| == 0 then 0 else 10 * Value(s[..|s| - 1]) + DigitValue(s[|s| - 1])
  }

  /**
    `str(n)` for `n >= 0`: the canonical digits, with no leading zero except
    for the number zero itself, and denoting exactly `n`.
   */
  function Digits(n: nat): (r: string)
    ensures |r| >= 1 && AllDigits(r)
    ensures |r| == 1 || r[0] != '0'
    ensures Value(r) == n
  {
    if n < 10 then [DigitChar(n)]
    else
      var r := Digits(n / 10) + [DigitChar(n % 10)];
      assert r[..|r| - 1] == Digits(n / 10);
      r
  }

  function Zeros(k: nat): (z: string)
    ensures |z| == k
    ensures forall i :: 0 <= i < k ==> z[i] == '0'
  {
    seq(k, _ => '0')
  }

  /**
    Python's `f"{n:0{width}d}"` for `n >= 0`: `str(n)` left-padded with zeros
    up to a minimum width; a longer rendering is kept whole.
   */
  function ZeroPadded(n: nat, width: nat): (r: string)
    ensures AllDigits(r)
    ensures |r| == if |Digits(n)| >= width then |Digits(n)| else width
    ensures Value(r) == n
  {
    var d := Digits(n);
    if |d| >= width then d
    else
      ValueLeadingZeros(width - |d|, d);
      Zeros(width - |d|) + d
  }

  /** Leading zeros do not change the denoted number. */
  lemma {:induction false} ValueLeadingZeros(k: nat, s: string)
    requires AllDigits(s)
    ensures AllDigits(Zeros(k) + s)
    ensures Value(Zeros(k) + s) == Value(s)
    decreases |s|
  {
    var z := Zeros(k);
    if |s| == 0 {
      assert z + s == z;
      ZerosValue(k);
    } else {
      var t := s[..|s| - 1];
      assert (z + s)[..|z + s| - 1] == z + t;
      ValueLeadingZeros(k, t);
    }
  }

  lemma {:induction false} ZerosValue(k: nat)
    ensures Value(Zeros(k)) == 0
  {
    if k > 0 {
      assert Zeros(k)[..k - 1] == Zeros(k - 1);
      ZerosValue(k - 1);
    }
  }

  function Pow10(k: nat): (p: nat)
    ensures p >= 1
  {
    if k == 0 then 1 else 10 * Pow10(k - 1)
  }

  /** `str(n)` has at most `k` digits exactly when `n < 10^k`. */
  lemma {:induction false} DigitsLength(n: nat, k: nat)
    requires k >= 1
    ensures |Digits(n)| <= k <==> n < Pow10(k)
    decreases n
  {
    if n >= 10 {
      if k == 1 {
        assert |Digits(n)| == |Digits(n / 10)| + 1;
      } else {
        DigitsLength(n / 10, k - 1);
      }
    } else if k > 1 {
      PowAtLeastTen(k);
    }
  }

  lemma {:induction false} PowAtLeastTen(k: nat)
    requires k >= 1
    ensures Pow10(k) >= 10
  {
    if k > 1 {
      PowAtLeastTen(k - 1);
    }
  }

  /**
    A number below `10^width` is rendered in exactly `width` characters, so
    the padding fills every position.
   */
  lemma ZeroPaddedWidth(n: nat, width: nat)
    requires width >= 1 && n < Pow10(width)
    ensures |ZeroPadded(n, width)| == width
  {
    DigitsLength(n, width);
  }

  /**
    For digit strings of the same length, the lexicographic order of the
    strings is the numeric order of the numbers they denote.
   */
  lemma {:induction false} ValueOrderIsLexOrder(a: string, b: string)
    requires AllDigits(a) && AllDigits(b) && |a| == |b|
    ensures Value(a) < Value(b) <==> Less(a, b)
    decreases |a|
  {
    if |a| == 0 {
      assert a == b;
      LessIrreflexive(a);
    } else {
      var a', b' := a[..|a| - 1], b[..|b| - 1];
      var x, y := a[|a| - 1], b[|b| - 1];
      assert a == a' + [x] && b == b' + [y];
      LessSnoc(a', x, b', y);
      ValueOrderIsLexOrder(a', b');
      ValueOrderIsLexOrder(b', a');
      LessTrichotomous(a', b');
    }
  }

  /** Two digit strings of the same length denote the same number only if they are equal. */
  lemma {:induction false} ValueInjectiveAtLength(a: string, b: string)
    requires AllDigits(a) && AllDigits(b) && |a| == |b|
    requires Value(a) == Value(b)
    ensures a == b
  {
    ValueOrderIsLexOrder(a, b);
    ValueOrderIsLexOrder(b, a);
    LessTrichotomous(a, b);
  }

  /** A digit string without a superfluous leading zero is `str` of its value. */
  lemma {:induction false} CanonicalDigits(s: string)
    requires |s| >= 1 && AllDigits(s)
    requires |s| == 1 || s[0] != '0'
    ensures Digits(Value(s)) == s
    decreases |s|
  {
    if |s| > 1 {
      var t := s[..|s| - 1];
      var d := DigitValue(s[|s| - 1]);
      CanonicalDigits(t);
      assert DigitChar(0) == '0';
      assert Value(t) >= 1;
      assert Value(s) == 10 * Value(t) + d;
      assert Value(s) / 10 == Value(t) && Value(s) % 10 == d;
      assert DigitChar(d) == s[|s| - 1];
      assert s == t + [s[|s| - 1]];
    }
  }

  /**
    `{n:0Wd}` padding is order-preserving within its width: for numbers below
    `10^W`, numeric order and lexicographic order of the renderings agree.
   */
  lemma ZeroPaddedOrder(i: nat, j: nat, width: nat)
    requires width >= 1 && i < Pow10(width) && j < Pow10(width)
    ensures i < j <==> Less(ZeroPadded(i, width), ZeroPadded(j, width))
  {
    ZeroPaddedWidth(i, width);
    ZeroPaddedWidth(j, width);
    ValueOrderIsLexOrder(ZeroPadded(i, width), ZeroPadded(j, width));
  }

  /**
    The only strings that `{n:0Wd}` can produce: all digits, and either exactly
    W long or longer without a leading zero. Each such string is the
    rendering of the number it denotes.
   */
  lemma ZeroPaddedOfValue(s: string, width: nat)
    requires width >= 1 && AllDigits(s)
    requires |s| == width || (|s| > width && s[0] != '0')
    ensures ZeroPadded(Value(s), width) == s
  {
    if |s| == width {
      DigitsLength(Value(s), width);
      ValueBound(s);
      ValueInjectiveAtLength(ZeroPadded(Value(s), width), s);
    } else {
      CanonicalDigits(s);
    }
  }

  lemma {:induction false} ValueBound(s: string)
    requires AllDigits(s)
    ensures Value(s) < Pow10(|s|)
    decreases |s|
  {
    if |s| > 0 {
      ValueBound(s[..|s| - 1]);
    }
  }
}
