/**
 * The JavaScript number behaviour the pages depend on, on integers:
 * NaN from a failed `parseInt`, the truncating `%`, `Math.floor` of a
 * quotient, `Math.round` of a ratio, decimal `toString`, `padStart`
 * and `parseInt` itself.
 *
 * `Math.floor(a / b)` for a positive divisor `b` is Dafny's `a / b`:
 * Dafny's division is Euclidean, which for `b > 0` rounds toward
 * negative infinity exactly as `Math.floor` does.
 */
module Numbers {
  import opened Wrappers
  import opened Text

  /** A JavaScript number as these pages produce it: an integer, or NaN. */
  datatype Num = Int(value: int) | NaN

  /** The quotient JavaScript's `%` goes with: `a / b` truncated toward zero. */
  function Quot(a: int, b: int): int
    requires b > 0
  {
    if a >= 0 then a / b else -((-a) / b)
  }

  /** `a % b` in JavaScript for a positive `b`: the remainder that goes with truncation, carrying the sign of `a`. */
  function Rem(a: int, b: int): (r: int)
    requires b > 0
    ensures a == b * Quot(a, b) + r
    ensures -b < r < b
    ensures a >= 0 ==> r >= 0
    ensures a < 0 ==> r <= 0
  {
    if a >= 0 then a % b
    else
      var q := (-a) / b;
      assert -a == b * q + (-a) % b;
      assert b * -q == -(b * q);
      -((-a) % b)
  }

  /** `Math.round(n / d)` for a positive `d`: the integer nearest the ratio, halves rounded up. */
  function RoundRatio(n: int, d: int): (r: int)
    requires d > 0
    ensures 2 * d * r <= 2 * n + d < 2 * d * r + 2 * d
  {
    var x, dd := 2 * n + d, 2 * d;
    assert x == dd * (x / dd) + x % dd;
    x / dd
  }

  /** Rounding keeps the order of the numerators. */
  lemma RoundRatioMonotone(a: int, b: int, d: int)
    requires d > 0 && a <= b
    ensures RoundRatio(a, d) <= RoundRatio(b, d)
  {
    var ra, rb := RoundRatio(a, d), RoundRatio(b, d);
    if ra > rb {
      assert d * (ra - rb - 1) >= 0 by {
        MulNonNegative(d, ra - rb - 1);
      }
    }
  }

  lemma MulNonNegative(a: int, b: int)
    requires a >= 0 && b >= 0
    ensures a * b >= 0
  {
  }

  /** Only one integer satisfies the rounding bounds. */
  lemma RoundRatioUnique(n: int, d: int, k: int)
    requires d > 0 && 2 * d * k <= 2 * n + d < 2 * d * k + 2 * d
    ensures RoundRatio(n, d) == k
  {
    var r := RoundRatio(n, d);
    if r > k {
      assert d * (r - k - 1) >= 0 by { MulNonNegative(d, r - k - 1); }
    } else if r < k {
      assert d * (k - r - 1) >= 0 by { MulNonNegative(d, k - r - 1); }
    }
  }

  /** A whole multiple of the denominator rounds to its factor. */
  lemma RoundRatioOfMultiple(k: int, d: int)
    requires d > 0
    ensures RoundRatio(k * d, d) == k
  {
    assert 2 * d * k <= 2 * (k * d) + d < 2 * d * k + 2 * d;
    RoundRatioUnique(k * d, d, k);
  }

  /** `Math.round(part / whole * 100)` for `0 <= part <= whole` is a percentage, 0 for none and 100 for all. */
  lemma RoundPercent(part: int, whole: int)
    requires 0 <= part <= whole && whole > 0
    ensures 0 <= RoundRatio(100 * part, whole) <= 100
    ensures part == 0 ==> RoundRatio(100 * part, whole) == 0
    ensures part == whole ==> RoundRatio(100 * part, whole) == 100
  {
    RoundRatioOfMultiple(0, whole);
    RoundRatioOfMultiple(100, whole);
    RoundRatioMonotone(0, 100 * part, whole);
    RoundRatioMonotone(100 * part, 100 * whole, whole);
  }

  predicate IsDigit(c: char) {
    '0' <= c <= '9'
  }

  predicate AllDigits(s: string) {
    forall i :: 0 <= i < |s| ==> IsDigit(s[i])
  }

  function DigitChar(d: int): (c: char)
    requires 0 <= d < 10
    ensures IsDigit(c) && c as int - '0' as int == d
  {
    ('0' as int + d) as char
  }

  /** `n.toString()` for a natural number: decimal digits without leading zeros. */
  function NatToString(n: nat): (s: string)
    ensures |s| >= 1 && AllDigits(s)
    ensures |s| > 1 ==> s[0] != '0'
  {
    if n < 10 then [DigitChar(n)] else NatToString(n / 10) + [DigitChar(n % 10)]
  }

  /** `n.toString()` for an integer. */
  function IntToString(n: int): string {
    if n < 0 then "-" + NatToString(-n) else NatToString(n)
  }

  /** The value of a string of decimal digits (leading zeros allowed). */
  function DigitsValue(s: string): nat
    requires AllDigits(s)
  {
    if s == [] then 0 else 10 * DigitsValue(s[..|s| - 1]) + (s[|s| - 1] as int - '0' as int)
  }

  /** Reading back the digits of `n` gives `n`. */
  lemma {:induction false} DigitsValueOfNatToString(n: nat)
    ensures DigitsValue(NatToString(n)) == n
  {
    if n >= 10 {
      var s := NatToString(n);
      assert s[..|s| - 1] == NatToString(n / 10);
      DigitsValueOfNatToString(n / 10);
    }
  }

  /** A leading zero does not change the value. */
  lemma {:induction false} DigitsValueLeadingZero(s: string)
    requires AllDigits(s)
    ensures DigitsValue("0" + s) == DigitsValue(s)
  {
    if s != [] {
      var z := "0" + s;
      assert z[..|z| - 1] == "0" + s[..|s| - 1];
      DigitsValueLeadingZero(s[..|s| - 1]);
    } else {
      assert ("0" + s)[..0] == [];
    }
  }

  /** A field of at least one decimal digit, read as a number. */
  function ReadDigits(p: string): Option<nat> {
    if |p| >= 1 && AllDigits(p) then Some(DigitsValue(p)) else None
  }

  /** A printed count reads back as the count. */
  lemma ReadDigitsOfNat(n: nat)
    ensures ReadDigits(IntToString(n)) == Some(n)
  {
    DigitsValueOfNatToString(n);
  }

  /** `s.padStart(n, c)`: `s` preceded by as many `c` as it takes to reach length `n`. */
  function PadStart(s: string, n: nat, c: char): (r: string)
    ensures |r| == if |s| >= n then |s| else n
    ensures r[|r| - |s|..] == s
    ensures forall i :: 0 <= i < |r| - |s| ==> r[i] == c
  {
    if |s| >= n then s else seq(n - |s|, _ => c) + s
  }

  /**
   * `n.toString().padStart(2, '0')`, the two-digit field of a clock: only a
   * single digit is short of two characters (`Pad2IsPadStart`).
   */
  function Pad2(n: int): string {
    if 0 <= n < 10 then ['0', DigitChar(n)] else IntToString(n)
  }

  /** The field is the number's decimal text padded on the left with '0' to two characters. */
  lemma Pad2IsPadStart(n: int)
    ensures Pad2(n) == PadStart(IntToString(n), 2, '0')
  {
    if 0 <= n < 10 {
      assert IntToString(n) == [DigitChar(n)];
    } else if n >= 10 {
      assert |NatToString(n)| >= 2;
    } else {
      assert |IntToString(n)| >= 2;
    }
  }

  /** A two-digit field of a natural number is all digits and reads back as the number. */
  lemma Pad2Value(n: nat)
    ensures |Pad2(n)| >= 2 && AllDigits(Pad2(n)) && DigitsValue(Pad2(n)) == n
  {
    var s := NatToString(n);
    DigitsValueOfNatToString(n);
    if n < 10 {
      assert Pad2(n) == "0" + s;
      DigitsValueLeadingZero(s);
    }
  }

  /** The longest prefix of `s` made of decimal digits. */
  function DecimalPrefix(s: string): (p: string)
    ensures |p| <= |s| && p == s[..|p|] && AllDigits(p)
    ensures |p| < |s| ==> !IsDigit(s[|p|])
  {
    if s != [] && IsDigit(s[0]) then [s[0]] + DecimalPrefix(s[1..]) else []
  }

  predicate IsHexDigit(c: char) {
    IsDigit(c) || 'a' <= c <= 'f' || 'A' <= c <= 'F'
  }

  function HexDigitValue(c: char): int
    requires IsHexDigit(c)
  {
    if IsDigit(c) then c as int - '0' as int
    else if 'a' <= c <= 'f' then c as int - 'a' as int + 10
    else c as int - 'A' as int + 10
  }

  /** The longest prefix of `s` made of hexadecimal digits. */
  function HexPrefix(s: string): (p: string)
    ensures |p| <= |s| && forall i :: 0 <= i < |p| ==> IsHexDigit(p[i])
  {
    if s != [] && IsHexDigit(s[0]) then [s[0]] + HexPrefix(s[1..]) else []
  }

  function HexValue(s: string): nat
    requires forall i :: 0 <= i < |s| ==> IsHexDigit(s[i])
  {
    if s == [] then 0 else 16 * HexValue(s[..|s| - 1]) + HexDigitValue(s[|s| - 1])
  }

  /**
   * `parseInt(s)` with no radix: leading white space is skipped, an optional
   * sign is read, and the digits that follow give the value; no digits at
   * all gives NaN (None).
   */
  function ParseInt(s: string): Option<int> {
    ParseSigned(TrimStart(s))
  }

  /** `parseInt` after the white space: an optional `-` or `+`, then an unsigned number. */
  function ParseSigned(t: string): Option<int> {
    if |t| > 0 && t[0] == '-' then Negate(ParseUnsigned(t[1..]))
    else if |t| > 0 && t[0] == '+' then Widen(ParseUnsigned(t[1..]))
    else Widen(ParseUnsigned(t))
  }

  function Negate(o: Option<nat>): Option<int> {
    match o
    case None => None
    case Some(v) => var i: int := v; Some(-i)
  }

  function Widen(o: Option<nat>): Option<int> {
    match o
    case None => None
    case Some(v) => Some(v)
  }

  /** An unsigned number: a `0x`/`0X` prefix switches to base 16, otherwise the longest run of decimal digits. */
  function ParseUnsigned(body: string): Option<nat> {
    if |body| >= 2 && body[0] == '0' && (body[1] == 'x' || body[1] == 'X') then
      var ds := HexPrefix(body[2..]);
      if ds == [] then None else Some(HexValue(ds))
    else
      var ds := DecimalPrefix(body);
      if ds == [] then None else Some(DigitsValue(ds))
  }

  /** A string of digits is its own decimal prefix. */
  lemma {:induction false} DecimalPrefixOfDigits(s: string)
    requires AllDigits(s)
    ensures DecimalPrefix(s) == s
  {
    if s != [] {
      DecimalPrefixOfDigits(s[1..]);
    }
  }

  /** Digits without a leading zero read as their value. */
  lemma ParseUnsignedOfDigits(digits: string)
    requires |digits| >= 1 && AllDigits(digits) && (|digits| > 1 ==> digits[0] != '0')
    ensures ParseUnsigned(digits) == Some(DigitsValue(digits))
  {
    DecimalPrefixOfDigits(digits);
  }

  /** A leading minus sign negates whatever follows it. */
  lemma ParseIntOfMinus(u: string)
    ensures ParseInt("-" + u) == Negate(ParseUnsigned(u))
  {
    var t := "-" + u;
    assert t[0] == '-' && t[1..] == u;
  }

  /** A leading plus sign is skipped. */
  lemma ParseIntOfPlus(u: string)
    ensures ParseInt("+" + u) == Widen(ParseUnsigned(u))
  {
    var t := "+" + u;
    assert t[0] == '+' && t[1..] == u;
  }

  /** `parseInt(String(n)) === n`: printing an integer and parsing it back is the identity. */
  lemma ParseIntOfIntToString(n: int)
    ensures ParseInt(IntToString(n)) == Some(n)
  {
    if n < 0 {
      ParseIntOfNegative(n);
    } else {
      ParseIntOfNatural(n);
    }
  }

  lemma ParseIntOfNatural(n: nat)
    ensures ParseInt(IntToString(n)) == Some(n)
  {
    var digits := NatToString(n);
    assert IntToString(n) == digits;
    assert ParseUnsigned(digits) == Some(n) by {
      DigitsValueOfNatToString(n);
      ParseUnsignedOfDigits(digits);
    }
    assert TrimStart(digits) == digits by {
      assert !IsSpace(digits[0]);
    }
    assert digits[0] != '-' && digits[0] != '+';
  }

  lemma ParseIntOfNegative(n: int)
    requires n < 0
    ensures ParseInt(IntToString(n)) == Some(n)
  {
    var digits := NatToString(-n);
    assert IntToString(n) == "-" + digits;
    assert ParseUnsigned(digits) == Some(-n) by {
      DigitsValueOfNatToString(-n);
      ParseUnsignedOfDigits(digits);
    }
    ParseIntOfMinus(digits);
  }
}
