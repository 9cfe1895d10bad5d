/** JSON numbers as finite decimals, and their JavaScript `String()` text.
    A number is written once, in canonical form, so that two spellings of
    the same value (`5`, `5.0`, `50e-1`) are the same `Number`. The text
    follows Number::toString in radix 10 (section 6.1.6.1.20 of ECMA-262). */
module JsonNumbers {
  import opened Wrappers
  import opened Numbers
  import opened Text

  /** mantissa × 10^exponent. */
  datatype Decimal = Decimal(mantissa: int, exponent: int)

  /** An integer is `Decimal(i, 0)`; any other value has a negative exponent
      and a mantissa that does not end in 0. */
  predicate Canonical(d: Decimal) {
    d.exponent <= 0 && (d.exponent < 0 ==> d.mantissa % 10 != 0)
  }

  type Number = d: Decimal | Canonical(d) witness Decimal(0, 0)

  function Pow10(k: nat): (r: nat)
    ensures r >= 1
  {
    if k == 0 then 1 else 10 * Pow10(k - 1)
  }

  /** The value a decimal denotes. */
  function Value(d: Decimal): real {
    if d.exponent >= 0 then (d.mantissa * Pow10(d.exponent)) as real
    else d.mantissa as real / Pow10(-d.exponent) as real
  }

  /** The JSON number `i`. */
  function FromInt(i: int): (r: Number)
    ensures Value(r) == i as real
  {
    Decimal(i, 0)
  }

  /** `Number.isInteger` on a canonical number. */
  predicate IsInteger(n: Number) {
    n.exponent == 0
  }

  /** A canonical number is an integer exactly when its value is. */
  lemma IntegerExactly(n: Number)
    ensures IsInteger(n) <==> Value(n).Floor as real == Value(n)
  {
    if n.exponent < 0 && Value(n).Floor as real == Value(n) {
      var k: nat := -n.exponent;
      ExactQuotient(n.mantissa, Pow10(k), Value(n).Floor);
      TensMultiple(Value(n).Floor, k);
    }
  }

  /** A quotient that is a whole number makes the dividend its multiple. */
  lemma ExactQuotient(m: int, p: nat, f: int)
    requires p >= 1 && m as real / p as real == f as real
    ensures m == f * p
  {
    var q := m as real / p as real;
    assert q * p as real == m as real;
    assert (f * p) as real == f as real * p as real;
  }

  lemma TensMultiple(f: int, k: nat)
    requires k >= 1
    ensures (f * Pow10(k)) % 10 == 0
  {
    var t := Pow10(k - 1);
    assert f * Pow10(k) == 10 * (f * t);
  }

  lemma {:induction false} Pow10Grows(j: nat, k: nat)
    requires j <= k
    ensures Pow10(j) <= Pow10(k)
  {
    if j < k {
      Pow10Grows(j, k - 1);
    }
  }

  /** `x >= 1`, decided on the mantissa. */
  predicate AtLeastOne(n: Number) {
    if n.exponent == 0 then n.mantissa >= 1 else n.mantissa >= Pow10(-n.exponent)
  }

  lemma AtLeastOneExactly(n: Number)
    ensures AtLeastOne(n) <==> Value(n) >= 1.0
  {
    if n.exponent < 0 {
      QuotientAtLeastOne(n.mantissa, Pow10(-n.exponent));
    }
  }

  lemma QuotientAtLeastOne(m: int, p: nat)
    requires p >= 1
    ensures m as real / p as real >= 1.0 <==> m >= p
  {
    var q := m as real / p as real;
    var pr := p as real;
    assert q * pr == m as real;
    if q >= 1.0 {
      assert (q - 1.0) * pr >= 0.0;
    } else {
      assert (1.0 - q) * pr > 0.0;
    }
  }

  /** `k` zero digits. */
  function Zeros(k: nat): (r: string)
    ensures |r| == k && forall i :: 0 <= i < k ==> r[i] == '0'
  {
    seq(k, _ => '0')
  }

  /** A positive integer split into the part before its trailing zeros and
      the number of those zeros. */
  function StripZeros(m: nat): (r: (nat, nat))
    requires m > 0
    ensures r.0 > 0 && r.0 % 10 != 0 && m == r.0 * Pow10(r.1)
  {
    if m % 10 == 0 then
      var (q, z) := StripZeros(m / 10);
      (q, z + 1)
    else (m, 0)
  }

  /** `String(x)` for a number: "0" for zero, a minus sign before the text
      of the magnitude of a negative number. */
  function NumberText(x: Number): (r: string)
    ensures |r| >= 1
    ensures x.mantissa < 0 <==> r[0] == '-'
    ensures r[0] == '-' || IsDigit(r[0])
  {
    if x.mantissa == 0 then "0"
    else if x.mantissa < 0 then "-" + PositiveText(-x.mantissa, x.exponent)
    else PositiveText(x.mantissa, x.exponent)
  }

  /** The text of m × 10^e for m > 0, from its digits without trailing
      zeros. */
  function PositiveText(m: nat, e: int): (r: string)
    requires m > 0
    ensures |r| >= 1 && IsDigit(r[0])
  {
    var (q, z) := StripZeros(m);
    ScaledText(q, z + e)
  }

  /** The text of q × 10^x: `s` holds the k significant digits and the
      decimal point sits after the first n of them; plain digits up to 21
      places, a leading "0." down to six zeros, scientific notation beyond. */
  function ScaledText(q: nat, x: int): (r: string)
    requires q > 0
    ensures |r| >= 1 && IsDigit(r[0])
  {
    var s := NatToString(q);
    var k := |s|;
    var n := k + x;
    if k <= n <= 21 then s + Zeros(n - k)
    else if 0 < n <= 21 then s[..n] + "." + s[n..]
    else if -6 < n <= 0 then "0." + Zeros(-n) + s
    else
      var exp := n - 1;
      var expText := (if exp >= 0 then "+" else "-") + NatToString(if exp >= 0 then exp else -exp);
      if k == 1 then s + "e" + expText else s[..1] + "." + s[1..] + "e" + expText
  }

  /** An integer below 10^21 in magnitude is written as its decimal digits,
      exactly as `Numbers.IntToString` writes it. */
  lemma IntegerText(i: int)
    requires -(Pow10(21) as int) < i < Pow10(21)
    ensures NumberText(FromInt(i)) == IntToString(i)
  {
    if i != 0 {
      var m: nat := if i < 0 then -i else i;
      PositiveIntegerText(m);
    }
  }

  /** A positive integer below 10^21 is written as its digits. */
  lemma PositiveIntegerText(m: nat)
    requires 0 < m < Pow10(21)
    ensures PositiveText(m, 0) == NatToString(m)
  {
    var (q, z) := StripZeros(m);
    ShiftedDigits(q, z);
    DigitCount(m, 21);
    assert |NatToString(m)| == |NatToString(q)| + z;
  }

  /** Appending k zeros to the digits multiplies by 10^k. */
  lemma {:induction false} ShiftedDigits(q: nat, k: nat)
    requires q > 0
    ensures NatToString(q * Pow10(k)) == NatToString(q) + Zeros(k)
  {
    if k > 0 {
      ShiftedDigits(q, k - 1);
      var x := q * Pow10(k - 1);
      assert Pow10(k) == 10 * Pow10(k - 1);
      TimesTen(q, Pow10(k - 1));
      AppendZero(x);
      assert Zeros(k) == Zeros(k - 1) + ['0'];
    }
  }

  lemma TimesTen(q: nat, p: nat)
    ensures q * (10 * p) == (q * p) * 10
  {
  }

  lemma AppendZero(x: nat)
    requires x > 0
    ensures NatToString(x * 10) == NatToString(x) + ['0']
  {
    var y := x * 10;
    assert y / 10 == x && y % 10 == 0;
    assert DigitChar(0) == '0';
  }

  /** A number below 10^j has at most j digits. */
  lemma {:induction false} DigitCount(m: nat, j: nat)
    requires m < Pow10(j)
    ensures |NatToString(m)| <= j || (m < 10 && j == 0)
  {
    if m >= 10 {
      assert j >= 1;
      assert m / 10 < Pow10(j - 1);
      DigitCount(m / 10, j - 1);
    }
  }

  /** The branches of the algorithm at work: a fraction, a small number, a
      large one, and a negative one. */
  lemma NumberTextExamples()
    ensures NumberText(Decimal(15, -1)) == "1.5"
    ensures NumberText(Decimal(1, -6)) == "0.000001"
    ensures NumberText(Decimal(1, -7)) == "1e-7"
    ensures NumberText(Decimal(-25, -1)) == "-2.5"
  {
    assert NatToString(15) == "15";
    assert NatToString(7) == "7";
    assert NatToString(25) == "25";
  }

  /** 10^21 is the first integer written in scientific notation. */
  lemma LargeIntegerText()
    ensures NumberText(FromInt(Pow10(21))) == "1e+21"
  {
    PowerText(21);
    TwentyOneText();
  }

  lemma TwentyOneText()
    ensures NatToString(21) == "21"
  {
    assert NatToString(21) == NatToString(2) + [DigitChar(1)];
  }

  /** From 10^21 on, a power of ten is written in exponent form. */
  lemma PowerText(k: nat)
    requires k >= 21
    ensures PositiveText(Pow10(k), 0) == "1e+" + NatToString(k)
  {
    var d := NatToString(k);
    var s := NatToString(1);
    ExponentForm(k);
    assert s == "1";
    assert s + "e" + ("+" + d) == "1e+" + d;
  }

  lemma ExponentForm(k: nat)
    requires k >= 21
    ensures PositiveText(Pow10(k), 0) == NatToString(1) + "e" + ("+" + NatToString(k))
  {
    StripPower(k);
    ScaledExponent(k);
  }

  lemma ScaledExponent(k: nat)
    requires k >= 21
    ensures ScaledText(1, k) == NatToString(1) + "e" + ("+" + NatToString(k))
  {
    assert |NatToString(1)| == 1;
  }

  lemma {:induction false} StripPower(k: nat)
    ensures StripZeros(Pow10(k)) == (1, k)
  {
    if k > 0 {
      StripPower(k - 1);
      assert Pow10(k) / 10 == Pow10(k - 1);
    }
  }

  // ---------------------------------------------------------------------
  // Number(s) on a string (section 7.1.4.1.1 of ECMA-262)

  /** A JavaScript number: finite (an exact decimal here), an infinity, or
      NaN. JSON text only ever yields finite numbers. */
  datatype JsNumber = Finite(n: Number) | Infinity(negative: bool) | NaN

  /** `String(x)` for any number value. */
  function JsText(x: JsNumber): (r: string)
    ensures |r| >= 1
    ensures x.Finite? ==> r[0] == '-' || IsDigit(r[0])
  {
    match x
    case Finite(n) => NumberText(n)
    case Infinity(negative) => if negative then "-Infinity" else "Infinity"
    case NaN => "NaN"
  }

  /** `Boolean(x)`: false exactly for 0 and NaN. */
  function Truthy(x: JsNumber): (r: bool)
    ensures !r <==> x == NaN || (x.Finite? && Value(x.n) == 0.0)
  {
    ZeroExactly(x);
    match x
    case Finite(n) => n.mantissa != 0
    case Infinity(_) => true
    case NaN => false
  }

  lemma ZeroExactly(x: JsNumber)
    ensures x.Finite? ==> (x.n.mantissa == 0 <==> Value(x.n) == 0.0)
  {
    if x.Finite? && x.n.exponent < 0 {
      var p := Pow10(-x.n.exponent) as real;
      assert Value(x.n) * p == x.n.mantissa as real;
    }
  }

  /** m × 10^e in canonical form. */
  function Normalize(m: int, e: int): (r: Number)
    ensures Value(r) == Value(Decimal(m, e))
    decreases if e < 0 then -e else 0
  {
    if m == 0 then Decimal(0, 0)
    else if e >= 0 then Decimal(m * Pow10(e), 0)
    else if m % 10 == 0 then
      DropTrailingZero(m / 10, -e);
      Normalize(m / 10, e + 1)
    else Decimal(m, e)
  }

  /** (10a) × 10^-k is a × 10^-(k-1). */
  lemma DropTrailingZero(a: int, k: nat)
    requires k >= 1
    ensures Value(Decimal(10 * a, -(k as int))) == Value(Decimal(a, 1 - k))
  {
    var p := Pow10(k - 1);
    assert Pow10(k) == 10 * p;
    CancelTen(a, p);
  }

  lemma CancelTen(a: int, p: nat)
    requires p >= 1
    ensures (10 * a) as real / (10 * p) as real == a as real / p as real
  {
    var q := a as real / p as real;
    assert q * p as real == a as real;
    assert q * (10 * p) as real == (10 * a) as real;
  }

  /** -x, with -0 read as 0. */
  function Negate(x: Number): (r: Number)
    ensures Value(r) == -Value(x)
  {
    Decimal(-x.mantissa, x.exponent)
  }

  /** The length of the run of decimal digits that `s` starts with. */
  function DigitPrefix(s: string): (r: nat)
    ensures r <= |s| && AllDigits(s[..r])
    ensures r < |s| ==> !IsDigit(s[r])
  {
    if |s| > 0 && IsDigit(s[0]) then
      var k := DigitPrefix(s[1..]);
      assert s[..k + 1] == [s[0]] + s[1..][..k];
      k + 1
    else 0
  }

  /** The SignedInteger of an ExponentPart: an optional sign, then digits. */
  function ParseExponent(s: string): (r: Option<int>)
  {
    var negative := |s| > 0 && s[0] == '-';
    var u := if |s| > 0 && (s[0] == '+' || s[0] == '-') then s[1..] else s;
    if |u| > 0 && AllDigits(u) then Some(if negative then -(ReadDigits(u) as int) else ReadDigits(u))
    else None
  }

  /** A StrUnsignedDecimalLiteral other than `Infinity`: digits with an
      optional fraction, at least one digit in all, then an optional
      exponent. */
  function ParseUnsignedDecimal(u: string): (r: Option<Number>)
  {
    var i := DigitPrefix(u);
    var rest := u[i..];
    var hasPoint := |rest| > 0 && rest[0] == '.';
    var afterPoint := if hasPoint then rest[1..] else "";
    var f := DigitPrefix(afterPoint);
    var after := if hasPoint then afterPoint[f..] else rest;
    if i + f == 0 then None
    else
      var exp := if after == "" then Some(0)
                 else if after[0] == 'e' || after[0] == 'E' then ParseExponent(after[1..])
                 else None;
      if exp.None? then None
      else
        var digits := u[..i] + afterPoint[..f];
        assert AllDigits(digits) by {
          assert forall j :: 0 <= j < |digits| ==> digits[j] == if j < i then u[..i][j] else afterPoint[..f][j - i];
        }
        Some(Normalize(ReadDigits(digits), exp.value - f))
  }

  /** The radix a 0x, 0o or 0b prefix names (either case), 0 for none. */
  function RadixOf(c: char): nat {
    if c == 'x' || c == 'X' then 16
    else if c == 'o' || c == 'O' then 8
    else if c == 'b' || c == 'B' then 2
    else 0
  }

  /** The value of `c` as a digit in radix `base`, if it is one. */
  function RadixDigit(c: char, base: nat): (r: Option<nat>)
    ensures r.Some? ==> r.value < base
  {
    var d: Option<nat> :=
      if '0' <= c <= '9' then Some(c as int - '0' as int)
      else if 'a' <= c <= 'f' then Some(c as int - 'a' as int + 10)
      else if 'A' <= c <= 'F' then Some(c as int - 'A' as int + 10)
      else None;
    if d.Some? && d.value < base then d else None
  }

  /** The value of a digit string in radix `base`; none if a character is
      not a digit of that radix. */
  function ReadRadix(s: string, base: nat): Option<nat>
  {
    if |s| == 0 then Some(0)
    else
      var init := ReadRadix(s[..|s| - 1], base);
      var last := RadixDigit(s[|s| - 1], base);
      if init.Some? && last.Some? then Some(init.value * base + last.value) else None
  }

  /** `Number(s)`: white space around the literal is ignored and a blank
      string is 0. */
  function StringToNumber(s: string): (r: JsNumber)
    ensures Trim(s) == "" ==> r == Finite(FromInt(0))
  {
    ReadLiteral(Trim(s))
  }

  /** A StringNumericLiteral without its surrounding white space: an
      unsigned 0x, 0o or 0b integer, `Infinity` with an optional sign, or a
      decimal literal with an optional sign is read; anything else is NaN. */
  function ReadLiteral(t: string): JsNumber {
    if t == "" then Finite(FromInt(0))
    else if |t| >= 2 && t[0] == '0' && RadixOf(t[1]) != 0 then
      var v := ReadRadix(t[2..], RadixOf(t[1]));
      if |t| > 2 && v.Some? then Finite(FromInt(v.value)) else NaN
    else
      var negative := t[0] == '-';
      var u := if t[0] == '+' || t[0] == '-' then t[1..] else t;
      if u == "Infinity" then Infinity(negative)
      else match ParseUnsignedDecimal(u)
        case Some(x) => Finite(if negative then Negate(x) else x)
        case None => NaN
  }

  /** A digit string is its own leading digit run. */
  lemma {:induction false} AllDigitPrefix(s: string)
    requires AllDigits(s)
    ensures DigitPrefix(s) == |s|
  {
    if |s| > 0 {
      AllDigitPrefix(s[1..]);
    }
  }

  /** Reading the digits of n gives n. */
  lemma DigitsReadBack(n: nat)
    ensures ParseUnsignedDecimal(NatToString(n)) == Some(FromInt(n))
  {
    var u := NatToString(n);
    AllDigitPrefix(u);
    assert u[..|u|] + "" == u;
    ReadNatToString(n);
  }

  /** `Number` reads back the decimal text of every integer. */
  lemma IntTextReadsBack(i: int)
    ensures StringToNumber(IntToString(i)) == Finite(FromInt(i))
  {
    IntTextUnpadded(i);
    IntLiteralReads(i);
  }

  /** The decimal text of an integer has no white space to trim. */
  lemma IntTextUnpadded(i: int)
    ensures Trim(IntToString(i)) == IntToString(i)
  {
    var t := IntToString(i);
    var m: nat := if i < 0 then -i else i;
    var digits := NatToString(m);
    assert !IsSpace(t[0]) && !IsSpace(t[|t| - 1]) by {
      assert IsDigit(digits[|digits| - 1]);
      assert t[|t| - 1] == digits[|digits| - 1];
    }
    TrimKeeps(t);
  }

  lemma IntLiteralReads(i: int)
    ensures ReadLiteral(IntToString(i)) == Finite(FromInt(i))
  {
    var t := IntToString(i);
    var m: nat := if i < 0 then -i else i;
    var digits := NatToString(m);
    DigitsReadBack(m);
    if i >= 0 {
      assert t == digits;
      assert t[0] != 'I';
    } else {
      assert t[1..] == digits;
      assert digits[0] != 'I';
    }
  }

  /** `Number(String(i)) === i` for every integer written without an
      exponent. */
  lemma IntegerRoundTrip(i: int)
    requires -(Pow10(21) as int) < i < Pow10(21)
    ensures StringToNumber(NumberText(FromInt(i))) == Finite(FromInt(i))
  {
    IntegerText(i);
    IntTextReadsBack(i);
  }

  /** The branches of `Number(s)` at work. */
  /** White space around the literal makes no difference. */
  lemma SpaceIgnored(s: string)
    ensures StringToNumber(s) == StringToNumber(Trim(s))
  {
    TrimIdempotent(s);
  }

  lemma PaddedDigits()
    ensures StringToNumber(" 42\n") == Finite(Decimal(42, 0))
  {
    SpaceIgnored(" 42\n");
    PaddingTrimmed();
    FortyTwoText();
    IntTextReadsBack(42);
  }

  lemma PaddingTrimmed()
    ensures Trim(" 42\n") == "42"
  {
    TrimPadding(" ", "42", "\n");
    assert " " + "42" + "\n" == " 42\n";
  }

  lemma FortyTwoText()
    ensures IntToString(42) == "42"
  {
    assert DigitChar(4) == '4' && DigitChar(2) == '2';
    assert NatToString(42) == NatToString(4) + [DigitChar(2)];
  }

  lemma HexLiteral()
    ensures StringToNumber("0x1A") == Finite(Decimal(26, 0))
  {
    var t := "0x1A";
    TrimKeeps(t);
    assert t[2..] == "1A";
    assert ReadRadix("1A", 16) == Some(26) by {
      HexDigits();
      assert ReadRadix("", 16) == Some(0);
      assert "1"[..0] == "";
      assert ReadRadix("1", 16) == Some(1);
      assert "1A"[..1] == "1" && "1A"[1] == 'A';
    }
  }

  lemma HexDigits()
    ensures RadixDigit('1', 16) == Some(1)
    ensures RadixDigit('A', 16) == Some(10)
  {
  }

  lemma ExponentLiteral()
    ensures StringToNumber("1e3") == Finite(Decimal(1000, 0))
  {
    TrimKeeps("1e3");
    ExponentDecimal();
    assert "1e3" != "Infinity";
  }

  lemma ExponentDecimal()
    ensures ParseUnsignedDecimal("1e3") == Some(Decimal(1000, 0))
  {
    var t := "1e3";
    assert DigitPrefix(t) == 1 by {
      assert DigitPrefix(t[1..]) == 0;
    }
    assert t[1..] == "e3" && "e3"[1..] == "3";
    assert ParseExponent("3") == Some(3) by {
      assert ReadDigits("3") == 3 by {
        assert "3"[..0] == "";
      }
    }
    assert t[..1] + "" == "1";
    assert ReadDigits("1") == 1 by {
      assert "1"[..0] == "";
    }
    assert Normalize(1, 3) == Decimal(1000, 0);
  }

  lemma IncompleteExponent()
    ensures StringToNumber("1e") == NaN
  {
    TrimKeeps("1e");
    assert DigitPrefix("1e") == 1 by {
      assert DigitPrefix("1e"[1..]) == 0;
    }
    assert "1e"[1..] == "e" && "e"[1..] == "";
    assert ParseUnsignedDecimal("1e") == None;
  }

  lemma SignedHex()
    ensures StringToNumber("-0x1A") == NaN
  {
    TrimKeeps("-0x1A");
    assert "-0x1A"[1..] == "0x1A";
    assert DigitPrefix("0x1A") == 1 by {
      assert DigitPrefix("0x1A"[1..]) == 0;
    }
    assert "0x1A"[1..] == "x1A";
    assert ParseUnsignedDecimal("0x1A") == None;
  }

  lemma Letters()
    ensures StringToNumber("abc") == NaN
  {
    TrimKeeps("abc");
    assert DigitPrefix("abc") == 0;
    assert ParseUnsignedDecimal("abc") == None;
  }

  lemma SignedInfinity()
    ensures StringToNumber("-Infinity") == Infinity(true)
  {
    TrimKeeps("-Infinity");
    assert "-Infinity"[1..] == "Infinity";
  }
}
