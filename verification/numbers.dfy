/** Decimal rendering of integers as JavaScript's `String(n)` and
    `n.toString()` produce it for safe integers, with the digit-string reader
    that inverts it. */
module Numbers {
  import opened Wrappers

  predicate IsDigit(c: char) { '0' <= c <= '9' }

  predicate AllDigits(s: string) {
    forall i :: 0 <= i < |s| ==> IsDigit(s[i])
  }

  function DigitChar(d: nat): (c: char)
    requires d < 10
    ensures IsDigit(c) && c as int - '0' as int == d
  {
    (d + '0' as int) as char
  }

  function DigitValue(c: char): nat
    requires IsDigit(c)
  {
    c as int - '0' as int
  }

  /** The decimal digits of `n`, most significant first, no leading zero. */
  function NatToString(n: nat): (r: string)
    ensures |r| >= 1 && AllDigits(r)
    ensures n < 10 <==> |r| == 1
    ensures n >= 10 ==> r[0] != '0'
  {
    if n < 10 then [DigitChar(n)]
    else NatToString(n / 10) + [DigitChar(n % 10)]
  }

  /** The value of a digit string, read most significant digit first; the
      empty string reads as zero. */
  function ReadDigits(s: string): nat
    requires AllDigits(s)
  {
    if |s| == 0 then 0
    else ReadDigits(s[..|s| - 1]) * 10 + DigitValue(s[|s| - 1])
  }

  /** Reading back the rendering of `n` gives `n`. */
  lemma {:induction false} ReadNatToString(n: nat)
    ensures ReadDigits(NatToString(n)) == n
  {
    var s := NatToString(n);
    if n >= 10 {
      ReadNatToString(n / 10);
      assert s[..|s| - 1] == NatToString(n / 10);
    }
  }

  /** Leading zeros do not change the value read. */
  lemma {:induction false} ReadLeadingZero(s: string)
    requires AllDigits(s)
    ensures ReadDigits(['0'] + s) == ReadDigits(s)
  {
    if |s| > 0 {
      var t := ['0'] + s;
      assert t[..|t| - 1] == ['0'] + s[..|s| - 1];
      ReadLeadingZero(s[..|s| - 1]);
    }
  }

  /** `String(i)` for an integer: a minus sign before the magnitude's digits. */
  function IntToString(i: int): (r: string)
    ensures |r| >= 1
    ensures i < 0 <==> r[0] == '-'
    ensures i >= 0 ==> AllDigits(r)
  {
    if i < 0 then "-" + NatToString(-i) else NatToString(i)
  }

  /** The inverse reader: an optional minus sign and then at least one digit. */
  function ParseInt(s: string): (r: Option<int>)
    ensures r.Some? && |s| > 0 && s[0] != '-' ==> r.value >= 0
  {
    if |s| > 0 && s[0] == '-' then
      if |s| > 1 && AllDigits(s[1..]) then Some(0 - ReadDigits(s[1..]) as int) else None
    else if |s| > 0 && AllDigits(s) then Some(ReadDigits(s))
    else None
  }

  lemma IntRoundTrip(i: int)
    ensures ParseInt(IntToString(i)) == Some(i)
  {
    var s := IntToString(i);
    if i < 0 {
      var digits := NatToString(-i);
      assert s == "-" + digits;
      assert s[1..] == digits;
      ReadNatToString(-i);
      assert ParseInt(s) == Some(0 - ReadDigits(digits) as int);
    } else {
      ReadNatToString(i);
      assert IsDigit(s[0]);
      assert ParseInt(s) == Some(ReadDigits(s));
    }
  }

  /** Distinct integers render as distinct strings. */
  lemma IntToStringInjective(a: int, b: int)
    ensures IntToString(a) == IntToString(b) <==> a == b
  {
    IntRoundTrip(a);
    IntRoundTrip(b);
  }

  /** `padStart(width, fill)`: the fill repeated in front up to the width. */
  function PadStart(s: string, width: nat, fill: char): (r: string)
    ensures |s| >= width ==> r == s
    ensures |s| < width ==> |r| == width && r[width - |s|..] == s
    ensures forall i :: 0 <= i < |r| - |s| ==> r[i] == fill
  {
    if |s| >= width then s else seq(width - |s|, _ => fill) + s
  }

  /** A number below 100 padded to two digits reads back as itself. */
  lemma Pad2RoundTrip(n: nat)
    requires n < 100
    ensures |PadStart(NatToString(n), 2, '0')| == 2
    ensures AllDigits(PadStart(NatToString(n), 2, '0'))
    ensures ReadDigits(PadStart(NatToString(n), 2, '0')) == n
  {
    var s := NatToString(n);
    ReadNatToString(n);
    if n < 10 {
      assert PadStart(s, 2, '0') == ['0'] + s;
      ReadLeadingZero(s);
    } else {
      assert NatToString(n / 10) == [DigitChar(n / 10)];
    }
  }

  /** A four-digit year renders as four characters. */
  lemma FourDigits(n: int)
    requires 1000 <= n <= 9999
    ensures |IntToString(n)| == 4
  {
    assert 100 <= n / 10 <= 999;
    assert 10 <= n / 10 / 10 <= 99;
    assert 1 <= n / 10 / 10 / 10 <= 9;
    assert |NatToString(n / 10 / 10)| == 2;
    assert |NatToString(n / 10)| == 3;
  }
}
