/**
 * The pieces of Python's `str` behaviour the core relies on: `str(int)`,
 * `int(str)`, the float literal grammar `float(str)` accepts, `strip()` and
 * the ASCII part of `lower()`/`upper()`.
 */
module Text {
  import opened Wrappers

  // ---------------------------------------------------------------------
  // Decimal numerals

  predicate IsDigit(c: char) { '0' <= c <= '9' }

  predicate AllDigits(s: string) { forall i :: 0 <= i < |s| ==> IsDigit(s[i]) }

  function DigitChar(d: nat): (c: char)
    requires d < 10
    ensures IsDigit(c) && c as int - '0' as int == d
  {
    (d + '0' as int) as char
  }

  /** `str(n)` for a non-negative int: its digits, most significant first, without leading zeros. */
  function NatToDecimal(n: nat): (s: string)
    ensures |s| >= 1 && AllDigits(s)
    ensures |s| > 1 ==> s[0] != '0'
    decreases n
  {
    if n < 10 then [DigitChar(n)] else NatToDecimal(n / 10) + [DigitChar(n % 10)]
  }

  /** `str(n)` for any int. */
  function IntToDecimal(n: int): string
  {
    if n < 0 then "-" + NatToDecimal(-n) else NatToDecimal(n)
  }

  /** The value of a string of ASCII digits. */
  function DecimalValue(s: string): nat
    requires AllDigits(s)
  {
    if s == [] then 0 else 10 * DecimalValue(s[..|s| - 1]) + (s[|s| - 1] as int - '0' as int)
  }

  lemma {:induction false} NatToDecimalRoundTrip(n: nat)
    ensures DecimalValue(NatToDecimal(n)) == n
    decreases n
  {
    var s := NatToDecimal(n);
    if n >= 10 {
      NatToDecimalRoundTrip(n / 10);
      assert s[..|s| - 1] == NatToDecimal(n / 10);
    }
  }

  /** Distinct ints have distinct decimal forms, so `str(start_index + i)` names distinct variables. */
  lemma IntToDecimalInjective(a: int, b: int)
    requires IntToDecimal(a) == IntToDecimal(b)
    ensures a == b
  {
    if a < 0 && b < 0 {
      assert NatToDecimal(-a) == IntToDecimal(a)[1..];
      NatToDecimalRoundTrip(-a);
      NatToDecimalRoundTrip(-b);
    } else if a >= 0 && b >= 0 {
      NatToDecimalRoundTrip(a);
      NatToDecimalRoundTrip(b);
    }
  }

  // ---------------------------------------------------------------------
  // Searching

  /** The index of the first `c` in `s`, or `|s|` when there is none. */
  function IndexOf(s: string, c: char): (k: nat)
    ensures k <= |s|
  {
    if s == [] then 0 else if s[0] == c then 0 else 1 + IndexOf(s[1..], c)
  }

  /** `IndexOf` finds the first `c`, and reaches the end exactly when there is none. */
  lemma {:induction false} IndexOfFacts(s: string, c: char)
    ensures var k := IndexOf(s, c);
      && (k < |s| ==> s[k] == c)
      && (forall i :: 0 <= i < k ==> s[i] != c)
      && (k == |s| <==> c !in s)
  {
    if s != [] && s[0] != c {
      IndexOfFacts(s[1..], c);
      var k := IndexOf(s, c);
      forall i | 0 <= i < k ensures s[i] != c {
        if i > 0 { assert s[i] == s[1..][i - 1]; }
      }
      if c in s {
        var j :| 0 <= j < |s| && s[j] == c;
        assert s[1..][j - 1] == c;
      }
    }
  }

  // ---------------------------------------------------------------------
  // Whitespace and case

  /** The characters `str.isspace()` accepts and `str.strip()` removes. */
  predicate IsSpace(c: char)
  {
    var n := c as int;
    || 0x09 <= n <= 0x0d || 0x1c <= n <= 0x20 || n == 0x85 || n == 0xa0 || n == 0x1680
    || 0x2000 <= n <= 0x200a || n == 0x2028 || n == 0x2029 || n == 0x202f || n == 0x205f || n == 0x3000
  }

  predicate IsBlank(s: string) { forall i :: 0 <= i < |s| ==> IsSpace(s[i]) }

  /** `s.rstrip()`: `s` without its trailing whitespace. */
  function StripRight(s: string): (r: string)
    ensures |r| <= |s| && r == s[..|r|]
    ensures r == [] || !IsSpace(r[|r| - 1])
    ensures IsBlank(s[|r|..])
  {
    if s != [] && IsSpace(s[|s| - 1]) then
      var t := s[..|s| - 1];
      var r := StripRight(t);
      assert s[..|r|] == t[..|r|];
      assert forall i | |r| <= i < |s| :: s[i] == (if i < |t| then t[i] else s[|s| - 1]);
      assert forall i | 0 <= i < |s| - |r| :: s[|r|..][i] == s[|r| + i];
      r
    else s
  }

  /** `s.strip()`: `s` without its leading whitespace, then without its trailing whitespace. */
  function Strip(s: string): (r: string)
    ensures |r| <= |s|
    ensures r == [] || (!IsSpace(r[0]) && !IsSpace(r[|r| - 1]))
    ensures r == [] <==> IsBlank(s)
    decreases |s|
  {
    if s != [] && IsSpace(s[0]) then
      var r := Strip(s[1..]);
      assert IsBlank(s) <==> IsBlank(s[1..]) by {
        if IsBlank(s[1..]) {
          forall i | 0 <= i < |s| ensures IsSpace(s[i]) { if i > 0 { assert s[i] == s[1..][i - 1]; } }
        }
      }
      r
    else
      var r := StripRight(s);
      assert r == [] ==> s[|r|..] == s;
      r
  }

  /** Whitespace in front of a text does not survive `strip()`. */
  lemma {:induction false} StripBlankPrefix(w: string, t: string)
    requires IsBlank(w) && t != [] && !IsSpace(t[0]) && !IsSpace(t[|t| - 1])
    ensures Strip(w + t) == t
    decreases |w|
  {
    if w == [] {
      assert w + t == t;
    } else {
      assert (w + t)[0] == w[0];
      assert (w + t)[1..] == w[1..] + t;
      StripBlankPrefix(w[1..], t);
    }
  }

  lemma StripNoSpace(s: string)
    requires s == [] || (!IsSpace(s[0]) && !IsSpace(s[|s| - 1]))
    ensures Strip(s) == s
  {
  }

  function AsciiLowerChar(c: char): char { if 'A' <= c <= 'Z' then (c as int + 32) as char else c }

  function AsciiUpperChar(c: char): char { if 'a' <= c <= 'z' then (c as int - 32) as char else c }

  /**
   * `s.lower()` on ASCII letters. Python also lowers other scripts; where the
   * result is only compared with an ASCII word ('true', 'win', ...) this
   * mapping gives the same answer.
   */
  function Lower(s: string): (r: string)
    ensures |r| == |s| && forall i :: 0 <= i < |s| ==> r[i] == AsciiLowerChar(s[i])
  {
    if s == [] then [] else [AsciiLowerChar(s[0])] + Lower(s[1..])
  }

  /** `s.upper()` on ASCII letters. */
  function Upper(s: string): (r: string)
    ensures |r| == |s| && forall i :: 0 <= i < |s| ==> r[i] == AsciiUpperChar(s[i])
  {
    if s == [] then [] else [AsciiUpperChar(s[0])] + Upper(s[1..])
  }

  // ---------------------------------------------------------------------
  // int() and float() on strings

  /** Python's `digitpart`: digits, with single underscores allowed between two digits. */
  predicate IsDigitPart(s: string)
  {
    && |s| >= 1 && IsDigit(s[0]) && IsDigit(s[|s| - 1])
    && (forall i :: 0 <= i < |s| ==> IsDigit(s[i]) || s[i] == '_')
    && (forall i :: 0 <= i < |s| - 1 && s[i] == '_' ==> s[i + 1] != '_')
  }

  /** The digits of a digitpart. */
  function DropUnderscores(s: string): (r: string)
    requires forall i :: 0 <= i < |s| ==> IsDigit(s[i]) || s[i] == '_'
    ensures AllDigits(r) && |r| <= |s|
  {
    if s == [] then [] else (if s[0] == '_' then [] else [s[0]]) + DropUnderscores(s[1..])
  }

  function SignOf(s: string): (r: (int, string))
    ensures |r.1| <= |s|
  {
    if s != [] && s[0] == '-' then (-1, s[1..])
    else if s != [] && s[0] == '+' then (1, s[1..])
    else (1, s)
  }

  /** `int(s)`: surrounding whitespace, an optional sign and a decimal digitpart; None where Python raises ValueError. */
  function ParseInt(s: string): (r: Option<int>)
    ensures r.Some? <==> IsDigitPart(SignOf(Strip(s)).1)
  {
    var (sign, body) := SignOf(Strip(s));
    if IsDigitPart(body) then Some(sign * DecimalValue(DropUnderscores(body))) else None
  }

  lemma {:induction false} DecimalDigitPart(n: nat)
    ensures IsDigitPart(NatToDecimal(n))
    ensures DropUnderscores(NatToDecimal(n)) == NatToDecimal(n)
  {
    DropUnderscoresOfDigits(NatToDecimal(n));
  }

  lemma {:induction false} DropUnderscoresOfDigits(s: string)
    requires AllDigits(s)
    ensures DropUnderscores(s) == s
  {
    if s != [] {
      DropUnderscoresOfDigits(s[1..]);
    }
  }

  /** `int(str(n)) == n`. */
  lemma ParseIntOfDecimal(n: int)
    ensures ParseInt(IntToDecimal(n)) == Some(n)
  {
    var s := IntToDecimal(n);
    var m: nat := if n < 0 then -n else n;
    var digits := NatToDecimal(m);
    DecimalDigitPart(m);
    NatToDecimalRoundTrip(m);
    assert s[|s| - 1] == digits[|digits| - 1];
    StripNoSpace(s);
    var sign := if n < 0 then -1 else 1;
    assert SignOf(s) == (sign, digits);
    assert ParseInt(s) == Some(sign * DecimalValue(DropUnderscores(digits)));
  }

  /** The exponent of a float literal: 'e' or 'E', an optional sign, a digitpart. */
  predicate IsExponent(s: string)
  {
    |s| >= 2 && (s[0] == 'e' || s[0] == 'E') && IsDigitPart(SignOf(s[1..]).1)
  }

  /** A decimal float literal without sign: `digitpart`, `digitpart '.' [digitpart]` or `'.' digitpart`, then an optional exponent. */
  predicate IsDecimalFloat(s: string)
  {
    exists i, j :: 0 <= i <= j <= |s| && IsMantissa(s[..i], s[i..j]) && (j == |s| || IsExponent(s[j..]))
  }

  /** A mantissa split as integer digits and `'.' fraction`, either part possibly empty but not both. */
  predicate IsMantissa(whole: string, frac: string)
  {
    if frac == [] then IsDigitPart(whole)
    else frac[0] == '.' && (IsDigitPart(whole) || whole == []) && (IsDigitPart(frac[1..]) || (frac[1..] == [] && whole != []))
  }

  /** The spellings of infinity and NaN `float()` accepts, in any case. */
  predicate IsSpecialFloat(s: string)
  {
    Lower(s) == "inf" || Lower(s) == "infinity" || Lower(s) == "nan"
  }

  /** What `float(s)` accepts; the value it rounds to is not modelled. */
  predicate IsFloatLiteral(s: string)
  {
    var body := SignOf(Strip(s)).1;
    IsDecimalFloat(body) || IsSpecialFloat(body)
  }
}
