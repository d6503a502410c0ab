/** The string rules the components lean on: ECMAScript `String.prototype.trim`,
    `startsWith`, and the decimal rendering of an integer inside a template
    literal. */
module Text {
  import opened Transport

  /** The characters `trim` removes: ECMAScript's WhiteSpace and
      LineTerminator code points. */
  predicate IsSpace(c: char)
  {
    || c == ' ' || c == '\t' || c == '\n' || c == '\r'
    || c == '\U{B}' || c == '\U{C}' || c == '\U{A0}' || c == '\U{FEFF}'
    || c == '\U{1680}' || ('\U{2000}' <= c <= '\U{200A}')
    || c == '\U{2028}' || c == '\U{2029}' || c == '\U{202F}' || c == '\U{205F}'
    || c == '\U{3000}'
  }

  /** Every character is whitespace: `!s.trim()` in the source. */
  predicate IsBlank(s: string)
  {
    forall i :: 0 <= i < |s| ==> IsSpace(s[i])
  }

  /** The number of leading whitespace characters. */
  function Lead(s: string): (n: nat)
    ensures n <= |s|
    ensures forall i :: 0 <= i < n ==> IsSpace(s[i])
    ensures n < |s| ==> !IsSpace(s[n])
  {
    if |s| == 0 || !IsSpace(s[0]) then 0 else 1 + Lead(s[1..])
  }

  /** The number of trailing whitespace characters. */
  function Trail(s: string): (n: nat)
    ensures n <= |s|
    ensures forall i :: |s| - n <= i < |s| ==> IsSpace(s[i])
    ensures n < |s| ==> !IsSpace(s[|s| - n - 1])
  {
    if |s| == 0 || !IsSpace(s[|s| - 1]) then 0 else 1 + Trail(s[..|s| - 1])
  }

  /** `s.trim()`: the contiguous middle of `s` left once leading and
      trailing whitespace are cut off. */
  function Trim(s: string): (r: string)
    ensures |r| <= |s|
    ensures r == "" <==> IsBlank(s)
    ensures r != "" ==> !IsSpace(r[0]) && !IsSpace(r[|r| - 1])
    ensures exists i :: 0 <= i <= |s| - |r| && r == s[i..i + |r|]
                        && IsBlank(s[..i]) && IsBlank(s[i + |r|..])
  {
    var a := Lead(s);
    if a == |s| then
      assert IsBlank(s[..0]) && IsBlank(s[|s|..]);
      ""
    else
      var b := Trail(s);
      assert !IsSpace(s[a]);
      var r := s[a..|s| - b];
      assert IsBlank(s[..a]) && IsBlank(s[|s| - b..]);
      assert a + |r| == |s| - b;
      assert r == s[a..a + |r|] && s[a + |r|..] == s[|s| - b..];
      assert r[0] == s[a] && r[|r| - 1] == s[|s| - b - 1];
      r
  }

  /** Trimming twice is trimming once. */
  lemma TrimIdempotent(s: string)
    ensures Trim(Trim(s)) == Trim(s)
  {
    var r := Trim(s);
    if r != "" {
      assert Lead(r) == 0;
      assert Trail(r) == 0;
    }
  }

  /** `s.startsWith(prefix)`. */
  predicate StartsWith(s: string, prefix: string)
  {
    |prefix| <= |s| && s[..|prefix|] == prefix
  }

  /** A string starts with a prefix of anything it starts with. */
  lemma StartsWithPrefix(s: string, p: string, q: string)
    requires StartsWith(s, p + q)
    ensures StartsWith(s, p)
  {
    assert s[..|p|] == (p + q)[..|p|];
  }

  /** The decimal digit for `d`. */
  function Digit(d: int): (c: char)
    requires 0 <= d < 10
    ensures '0' <= c <= '9'
  {
    "0123456789"[d]
  }

  /** The value of a decimal digit character. */
  function DigitValue(c: char): (d: int)
    requires '0' <= c <= '9'
    ensures 0 <= d < 10
  {
    c as int - '0' as int
  }

  /** The decimal digits of `n`, most significant first, no leading zero:
      how a JavaScript template literal renders a non-negative safe integer. */
  function NatToString(n: nat): (r: string)
    ensures |r| >= 1
    ensures forall i :: 0 <= i < |r| ==> '0' <= r[i] <= '9'
  {
    if n < 10 then [Digit(n)] else NatToString(n / 10) + [Digit(n % 10)]
  }

  /** Text of decimal digits, with at most a leading `-`. */
  predicate IsDecimal(s: string)
  {
    |s| >= 1 && forall i :: 0 <= i < |s| ==> '0' <= s[i] <= '9' || (i == 0 && s[i] == '-')
  }

  /** A signed integer rendered in decimal, with a leading `-` when negative. */
  function IntToString(n: int): (r: string)
    ensures IsDecimal(r)
    ensures r[0] == '-' <==> n < 0
  {
    if n < 0 then "-" + NatToString(-n) else NatToString(n)
  }

  /** The value of a string of decimal digits. */
  function ParseDigits(s: string): int
    requires forall i :: 0 <= i < |s| ==> '0' <= s[i] <= '9'
  {
    if |s| == 0 then 0 else ParseDigits(s[..|s| - 1]) * 10 + DigitValue(s[|s| - 1])
  }

  /** The value of an optionally signed decimal rendering. */
  function ParseInt(s: string): int
    requires IsDecimal(s)
  {
    if s[0] == '-' then -ParseDigits(s[1..]) else ParseDigits(s)
  }

  /** Reading back the digits of a natural number gives that number. */
  lemma {:induction false} NatToStringRoundTrip(n: nat)
    ensures ParseDigits(NatToString(n)) == n
  {
    if n >= 10 {
      var s := NatToString(n);
      NatToStringRoundTrip(n / 10);
      assert s[..|s| - 1] == NatToString(n / 10);
      assert DigitValue(s[|s| - 1]) == n % 10;
    } else {
      assert DigitValue(Digit(n)) == n;
    }
  }

  /** A negative integer reads back through its digits after the sign. */
  lemma NegativeRoundTrip(m: int)
    requires m > 0
    ensures ParseInt(IntToString(-m)) == -m
  {
    ReadBackNegative(m);
    NatToStringRoundTrip(m);
  }

  /** A negative integer reads back as the negated value of its digits. */
  lemma ReadBackNegative(m: int)
    requires m > 0
    ensures ParseInt(IntToString(-m)) == -ParseDigits(NatToString(m))
  {
    var digits := NatToString(m);
    assert IntToString(-m) == "-" + digits;
    ParseSigned(digits);
  }

  /** A `-` followed by digits reads as the negated value of the digits. */
  lemma ParseSigned(digits: string)
    requires |digits| >= 1 && forall i :: 0 <= i < |digits| ==> '0' <= digits[i] <= '9'
    ensures IsDecimal("-" + digits)
    ensures ParseInt("-" + digits) == -ParseDigits(digits)
  {
    var s := "-" + digits;
    assert s[1..] == digits;
    assert forall i :: 1 <= i < |s| ==> s[i] == digits[i - 1];
  }

  /** Reading back the rendering of any integer gives that integer. */
  lemma IntToStringRoundTrip(n: int)
    ensures ParseInt(IntToString(n)) == n
  {
    if n < 0 {
      NegativeRoundTrip(-n);
    } else {
      NatToStringRoundTrip(n);
    }
  }

  /** Distinct integers render as distinct strings. */
  lemma IntToStringInjective(a: int, b: int)
    requires a != b
    ensures IntToString(a) != IntToString(b)
  {
    IntToStringRoundTrip(a);
    IntToStringRoundTrip(b);
  }

  /** Prefixing a common text keeps distinct strings distinct. */
  lemma PrefixKeepsDistinct(p: string, a: string, b: string)
    requires a != b
    ensures p + a != p + b
  {
    assert (p + a)[|p|..] == a;
    assert (p + b)[|p|..] == b;
  }

  /** `!isNaN(parseFloat(s))`: once leading whitespace and one optional sign
      are skipped, the text begins a decimal literal, that is `Infinity`, a
      digit, or a point followed by a digit. */
  predicate HasNumericPrefix(s: string)
  {
    var t := s[Lead(s)..];
    var u := if |t| > 0 && (t[0] == '+' || t[0] == '-') then t[1..] else t;
    || StartsWith(u, "Infinity")
    || (|u| > 0 && '0' <= u[0] <= '9')
    || (|u| > 1 && u[0] == '.' && '0' <= u[1] <= '9')
  }

  /** Blank text never reads as a number, and the decimal rendering of any
      integer always does. */
  lemma NumericPrefixBounds(s: string, n: int)
    ensures IsBlank(s) ==> !HasNumericPrefix(s)
    ensures HasNumericPrefix(IntToString(n))
  {
    var r := IntToString(n);
    if n < 0 {
      assert r[1..] == NatToString(-n);
    }
  }

  /** `parseFloat` reads only a prefix: trailing text after a number does
      not make it fail. */
  lemma NumericPrefixExamples()
    ensures HasNumericPrefix("12abc")
    ensures HasNumericPrefix(" -.5")
  {
    assert Lead("12abc") == 0;
    assert Lead(" -.5") == 1 by {
      assert " -.5"[1..] == "-.5";
    }
    assert " -.5"[1..][1..] == ".5";
  }

  /** A leading letter, or a point with no digit after it, is not a
      number. */
  lemma NonNumericExamples()
    ensures !HasNumericPrefix("abc")
    ensures !HasNumericPrefix(".")
  {
    assert Lead("abc") == 0;
    assert Lead(".") == 0;
  }

  /** `v || fallback` for an optional text: the value when it is present
      and non-empty, the fallback otherwise. */
  function Or(v: Option<string>, fallback: string): (r: string)
    ensures r == fallback || (v.Some? && r == v.value && r != "")
    ensures fallback != "" ==> r != ""
  {
    if v.Some? && v.value != "" then v.value else fallback
  }
}
