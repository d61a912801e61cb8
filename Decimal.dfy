/**
 * Decimal rendering and parsing of 32-bit integers: `int.ToString()` and
 * `int.Parse(string)` with the invariant culture's signs, and the wrap-around of
 * C#'s unchecked `int` addition.
 */
module Decimal {
  import opened Wrappers

  const Int32Min: int := -0x8000_0000
  const Int32Max: int := 0x7FFF_FFFF

  predicate IsInt32(n: int)
  {
    Int32Min <= n <= Int32Max
  }

  /** Unchecked 32-bit two's-complement arithmetic: `n` reduced into the
      `int` range modulo 2^32. */
  function Wrap32(n: int): (r: int)
    ensures IsInt32(r)
    ensures IsInt32(n) ==> r == n
    ensures (r - n) % 0x1_0000_0000 == 0
  {
    (n - Int32Min) % 0x1_0000_0000 + Int32Min
  }

  /** One past `int.MaxValue` wraps to `int.MinValue`. */
  lemma Wrap32OfMax()
    ensures Wrap32(Int32Max + 1) == Int32Min
  {
  }

  predicate IsDigit(c: char)
  {
    '0' <= c <= '9'
  }

  predicate AllDigits(s: string)
  {
    forall i :: 0 <= i < |s| ==> IsDigit(s[i])
  }

  function DigitChar(d: nat): (c: char)
    requires d < 10
    ensures IsDigit(c)
  {
    ('0' as int + d) as char
  }

  function DigitValue(c: char): (d: nat)
    requires IsDigit(c)
    ensures d < 10
  {
    c as int - '0' as int
  }

  /** Decimal digits of `n`, most significant first, without leading zeros. */
  function NatToString(n: nat): (s: string)
    ensures |s| > 0 && AllDigits(s)
  {
    if n < 10 then [DigitChar(n)] else NatToString(n / 10) + [DigitChar(n % 10)]
  }

  /** `n.ToString()`: a '-' before the digits of a negative number. */
  function IntToString(n: int): (s: string)
    ensures |s| > 0
  {
    if n < 0 then "-" + NatToString(-n) else NatToString(n)
  }

  /** The number a string of decimal digits denotes. */
  function DigitsValue(s: string): nat
    requires AllDigits(s)
  {
    if s == [] then 0 else 10 * DigitsValue(s[..|s| - 1]) + DigitValue(s[|s| - 1])
  }

  /** The white space `int.Parse` skips before and after the number. */
  predicate IsNumberWhite(c: char)
  {
    c == ' ' || '\t' <= c <= '\r'
  }

  function SkipLeadingWhite(s: string): string
  {
    if s != [] && IsNumberWhite(s[0]) then SkipLeadingWhite(s[1..]) else s
  }

  function SkipTrailingWhite(s: string): string
  {
    if s != [] && IsNumberWhite(s[|s| - 1]) then SkipTrailingWhite(s[..|s| - 1]) else s
  }

  /** The run of '\0' characters at the end of the text, which `int.Parse`
      tolerates after the number and its trailing white space. */
  function SkipTrailingNul(s: string): string
  {
    if s != [] && s[|s| - 1] == '\0' then SkipTrailingNul(s[..|s| - 1]) else s
  }

  /** `int.Parse(s)` (NumberStyles.Integer): optional white space, an
      optional sign, one or more digits, optional white space, then any
      number of '\0' characters up to the end. Text of any other shape (a
      FormatException) or a value outside the `int` range (an
      OverflowException) gives None. */
  function ParseInt32(s: string): (r: Option<int>)
    ensures r.Some? ==> IsInt32(r.value)
  {
    var t := SkipTrailingWhite(SkipTrailingNul(SkipLeadingWhite(s)));
    var negative := |t| > 0 && t[0] == '-';
    var digits := if |t| > 0 && (t[0] == '-' || t[0] == '+') then t[1..] else t;
    if digits == [] || !AllDigits(digits) then None
    else
      var v: int := if negative then -(DigitsValue(digits) as int) else DigitsValue(digits);
      if IsInt32(v) then Some(v) else None
  }

  lemma {:induction false} DigitsValueOfNatToString(n: nat)
    ensures DigitsValue(NatToString(n)) == n
  {
    if n >= 10 {
      var s := NatToString(n);
      assert s[..|s| - 1] == NatToString(n / 10);
      DigitsValueOfNatToString(n / 10);
    }
  }

  /** Parsing the decimal rendering of an `int` gives the `int` back. */
  lemma IntToStringRoundTrip(n: int)
    requires IsInt32(n)
    ensures ParseInt32(IntToString(n)) == Some(n)
  {
    var s := IntToString(n);
    var digits := NatToString(if n < 0 then -n else n);
    DigitsValueOfNatToString(if n < 0 then -n else n);
    assert SkipLeadingWhite(s) == s;
    assert s[|s| - 1] == digits[|digits| - 1];
    assert SkipTrailingNul(s) == s;
    assert SkipTrailingWhite(s) == s;
    if n < 0 {
      assert s[1..] == digits;
    }
  }

  /** Skipping leading white space stops at the first character that is not
      white space. */
  lemma {:induction false} SkipLeadingWhiteAppend(s: string, u: string)
    requires u != [] && !IsNumberWhite(u[0])
    ensures SkipLeadingWhite(s + u) == SkipLeadingWhite(s) + u
  {
    if s != [] {
      assert (s + u)[0] == s[0];
      assert (s + u)[1..] == s[1..] + u;
      if IsNumberWhite(s[0]) {
        SkipLeadingWhiteAppend(s[1..], u);
      }
    }
  }

  /** A '\0' at the end of the text does not change what `int.Parse`
      reads: `int.Parse("5\0")` is 5, as `int.Parse("5")` is. */
  lemma ParseIgnoresTrailingNul(s: string)
    ensures ParseInt32(s + "\0") == ParseInt32(s)
  {
    SkipLeadingWhiteAppend(s, "\0");
    var x := SkipLeadingWhite(s);
    assert (x + "\0")[..|x + "\0"| - 1] == x;
  }

  /** White space after a '\0' is not tolerated: `int.Parse("5\0 ")`
      throws, whatever comes before. */
  lemma NulBeforeWhiteRejected(s: string)
    ensures ParseInt32(s + "\0 ") == None
  {
    SkipLeadingWhiteAppend(s, "\0 ");
    var x := SkipLeadingWhite(s) + "\0 ";
    assert SkipTrailingNul(x) == x;
    assert x[..|x| - 1] == SkipLeadingWhite(s) + "\0";
    var y := SkipLeadingWhite(s) + "\0";
    assert SkipTrailingWhite(y) == y;
    assert y[|y| - 1] == '\0';
  }

  /** Different numbers have different renderings. */
  lemma IntToStringInjective(a: int, b: int)
    requires IntToString(a) == IntToString(b)
    ensures a == b
  {
    var sa, sb := IntToString(a), IntToString(b);
    assert sa[0] == '-' <==> a < 0;
    assert sb[0] == '-' <==> b < 0;
    DigitsValueOfNatToString(if a < 0 then -a else a);
    DigitsValueOfNatToString(if b < 0 then -b else b);
    if a < 0 {
      assert sa[1..] == NatToString(-a);
    }
    if b < 0 {
      assert sb[1..] == NatToString(-b);
    }
  }

  /** A rendering holds no space, so it is one token of a command. */
  lemma IntToStringHasNoSpace(n: int)
    ensures ' ' !in IntToString(n)
  {
    var digits := NatToString(if n < 0 then -n else n);
    assert forall i :: 0 <= i < |digits| ==> digits[i] != ' ';
    assert IntToString(n) == if n < 0 then "-" + digits else digits;
  }
}
