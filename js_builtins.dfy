/**
 * The JavaScript built-ins that the sky animation's colour code relies on,
 * stated over exact values: `parseInt(s, 16)`, `Number.prototype.toString(16)`,
 * `String.prototype.padStart`, `String.prototype.substr`, `String.prototype.replace`
 * with a one-character pattern, `Math.round`, `Math.floor` and the `%` operator.
 *
 * A JavaScript number is either NaN or, in every place this model needs one,
 * an integral value; fractional numbers are Dafny `real`s.
 */
module JsBuiltins {

  /** A number as produced by `parseInt` or `Math.round`: NaN or an integer. */
  datatype Number = NaN | Int(value: int)

  // ---------------------------------------------------------------------------
  // Characters
  // ---------------------------------------------------------------------------

  /** The white space and line terminators that `parseInt` skips before a number
      (WhiteSpace and LineTerminator of ECMAScript, including every Zs character). */
  predicate IsWhiteSpace(c: char)
  {
    || c == '\t' || c == '\n' || c == '\U{000B}' || c == '\U{000C}' || c == '\r'
    || c == ' ' || c == '\U{00A0}' || c == '\U{1680}' || ('\U{2000}' <= c <= '\U{200A}')
    || c == '\U{2028}' || c == '\U{2029}' || c == '\U{202F}' || c == '\U{205F}'
    || c == '\U{3000}' || c == '\U{FEFF}'
  }

  /** A digit of radix 16, in either case. */
  predicate IsHexDigit(c: char)
  {
    ('0' <= c <= '9') || ('a' <= c <= 'f') || ('A' <= c <= 'F')
  }

  /** A digit of radix 16 as `toString(16)` writes it: lower case only. */
  predicate IsLowerHexDigit(c: char)
  {
    ('0' <= c <= '9') || ('a' <= c <= 'f')
  }

  /** ASCII lower-casing; every other character is left as it is. */
  function ToLowerAscii(c: char): char
  {
    if 'A' <= c <= 'Z' then (c as int - 'A' as int + 'a' as int) as char else c
  }

  /** The lower-case digit that `toString(16)` writes for a digit value. */
  function HexDigitChar(d: nat): (c: char)
    requires d < 16
    ensures IsLowerHexDigit(c)
    ensures d == 0 <==> c == '0'
  {
    if d < 10 then ('0' as int + d) as char else ('a' as int + d - 10) as char
  }

  /** The value of a radix-16 digit; writing it back gives the lower-case digit. */
  function HexDigitValue(c: char): (d: nat)
    requires IsHexDigit(c)
    ensures d < 16
    ensures HexDigitChar(d) == ToLowerAscii(c)
  {
    if '0' <= c <= '9' then c as int - '0' as int
    else if 'a' <= c <= 'f' then c as int - 'a' as int + 10
    else c as int - 'A' as int + 10
  }

  lemma DigitCharValue(d: nat)
    requires d < 16
    ensures IsHexDigit(HexDigitChar(d)) && HexDigitValue(HexDigitChar(d)) == d
  {
  }

  // ---------------------------------------------------------------------------
  // parseInt(s, 16)
  // ---------------------------------------------------------------------------

  /** `s` with its leading white space removed. */
  function TrimStart(s: string): (r: string)
    ensures |r| <= |s|
    ensures r != [] ==> !IsWhiteSpace(r[0])
  {
    if s != [] && IsWhiteSpace(s[0]) then TrimStart(s[1..]) else s
  }

  /** Trimming removes a prefix made of white space only, and nothing else. */
  lemma {:induction false} TrimStartRemovesWhiteSpace(s: string)
    ensures var r := TrimStart(s);
      && r == s[|s| - |r|..]
      && forall i :: 0 <= i < |s| - |r| ==> IsWhiteSpace(s[i])
  {
    if s != [] && IsWhiteSpace(s[0]) {
      TrimStartRemovesWhiteSpace(s[1..]);
    }
  }

  /** The number of radix-16 digits at the front of `s`. */
  function HexPrefixLength(s: string): (k: nat)
    ensures k <= |s|
    ensures forall i :: 0 <= i < k ==> IsHexDigit(s[i])
    ensures k < |s| ==> !IsHexDigit(s[k])
  {
    if s != [] && IsHexDigit(s[0]) then 1 + HexPrefixLength(s[1..]) else 0
  }

  /** Not a single radix-16 digit anywhere in `s`. */
  predicate NoHexDigit(s: string)
  {
    forall c :: c in s ==> !IsHexDigit(c)
  }

  predicate AllHexDigits(s: string)
  {
    forall i :: 0 <= i < |s| ==> IsHexDigit(s[i])
  }

  /** The value of a string of radix-16 digits, most significant first. */
  function HexValue(digits: string): nat
    requires AllHexDigits(digits)
  {
    if digits == [] then 0
    else HexValue(digits[..|digits| - 1]) * 16 + HexDigitValue(digits[|digits| - 1])
  }

  /** `parseInt(input, 16)`: skip leading white space, read an optional sign and
      an optional `0x`/`0X` prefix, then the longest run of radix-16 digits; NaN
      when that run is empty. Characters after the run are ignored. */
  function ParseInt16(input: string): (r: Number)
    ensures NoHexDigit(input) ==> r == NaN
  {
    TrimStartRemovesWhiteSpace(input);
    var s := TrimStart(input);
    var negative := s != [] && s[0] == '-';
    var unsigned := if s != [] && (s[0] == '-' || s[0] == '+') then s[1..] else s;
    var body :=
      if |unsigned| >= 2 && unsigned[0] == '0' && (unsigned[1] == 'x' || unsigned[1] == 'X')
      then unsigned[2..] else unsigned;
    var k := HexPrefixLength(body);
    if k == 0 then NaN
    else
      var magnitude := HexValue(body[..k]);
      Int(if negative then -(magnitude as int) else magnitude)
  }

  /** Two radix-16 digits parse to the byte they spell. */
  lemma ParseTwoHexDigits(hi: char, lo: char)
    requires IsHexDigit(hi) && IsHexDigit(lo)
    ensures ParseInt16([hi, lo]) == Int(16 * HexDigitValue(hi) + HexDigitValue(lo))
  {
    var s := [hi, lo];
    assert TrimStart(s) == s;
    assert HexPrefixLength(s[1..]) == 1 by {
      assert HexPrefixLength(s[1..][1..]) == 0;
    }
    assert s[..2][..1] == [hi];
    assert HexValue([hi]) == HexDigitValue(hi) by {
      assert [hi][..0] == [];
    }
  }

  /** The empty string is not a number. */
  lemma ParseEmpty()
    ensures ParseInt16("") == NaN
  {
  }

  // ---------------------------------------------------------------------------
  // Number.prototype.toString(16)
  // ---------------------------------------------------------------------------

  /** The lower-case radix-16 digits of a natural number, without leading zeros. */
  function NaturalToHex(n: nat): (s: string)
    ensures s != []
  {
    if n < 16 then [HexDigitChar(n)]
    else NaturalToHex(n / 16) + [HexDigitChar(n % 16)]
  }

  /** `toString(16)` writes lower-case digits only, a single one exactly when
      the number is below 16, and no leading zero. */
  lemma {:induction false} NaturalToHexDigits(n: nat)
    ensures var s := NaturalToHex(n);
      && (forall i :: 0 <= i < |s| ==> IsLowerHexDigit(s[i]))
      && (|s| == 1 <==> n < 16)
      && (|s| > 1 ==> s[0] != '0')
  {
    if n >= 16 {
      NaturalToHexDigits(n / 16);
    }
  }

  /** Reading the digits `toString(16)` writes gives the number back. */
  lemma {:induction false} NaturalToHexValue(n: nat)
    ensures AllHexDigits(NaturalToHex(n)) && HexValue(NaturalToHex(n)) == n
  {
    var s := NaturalToHex(n);
    NaturalToHexDigits(n);
    if n < 16 {
      DigitCharValue(n);
      assert s[..0] == [];
    } else {
      NaturalToHexValue(n / 16);
      DigitCharValue(n % 16);
      assert s[..|s| - 1] == NaturalToHex(n / 16);
    }
  }

  /** `x.toString(16)` for NaN or an integral number. */
  function ToString16(x: Number): (s: string)
    ensures s != []
    ensures x.Int? ==> (s[0] == '-' <==> x.value < 0)
    ensures x.Int? && x.value >= 0 ==> AllHexDigits(s) && HexValue(s) == x.value
    ensures x.Int? && x.value < 0 ==> AllHexDigits(s[1..]) && HexValue(s[1..]) == -x.value
  {
    match x
    case NaN => "NaN"
    case Int(v) =>
      var n: nat := if v < 0 then -v else v;
      NaturalToHexDigits(n);
      NaturalToHexValue(n);
      if v < 0 then "-" + NaturalToHex(n) else NaturalToHex(n)
  }

  /** A byte splits into a high and a low radix-16 digit. */
  lemma SplitByte(n: nat) returns (hi: nat, lo: nat)
    requires n < 256
    ensures hi < 16 && lo < 16 && n == 16 * hi + lo
  {
    hi, lo := n / 16, n % 16;
  }

  /** A byte is written with one digit when its high digit is 0 and two otherwise. */
  lemma ByteToHex(hi: nat, lo: nat)
    requires hi < 16 && lo < 16
    ensures hi == 0 ==> NaturalToHex(16 * hi + lo) == [HexDigitChar(lo)]
    ensures hi > 0 ==> NaturalToHex(16 * hi + lo) == [HexDigitChar(hi), HexDigitChar(lo)]
  {
    var n := 16 * hi + lo;
    assert n / 16 == hi && n % 16 == lo;
    if hi > 0 {
      assert NaturalToHex(n) == NaturalToHex(hi) + [HexDigitChar(lo)];
      assert NaturalToHex(hi) == [HexDigitChar(hi)];
    }
  }

  // ---------------------------------------------------------------------------
  // String methods
  // ---------------------------------------------------------------------------

  /** `s.padStart(target, fill)` for a one-character `fill`. */
  function PadStart(s: string, target: nat, fill: char): (r: string)
    ensures |s| >= target ==> r == s
    ensures |s| < target ==> |r| == target
    decreases target - |s|
  {
    if |s| >= target then s else PadStart([fill] + s, target, fill)
  }

  /** Padding puts copies of `fill` in front of `s` and keeps `s` itself. */
  lemma {:induction false} PadStartKeepsText(s: string, target: nat, fill: char)
    ensures var r := PadStart(s, target, fill);
      && r[|r| - |s|..] == s
      && forall i :: 0 <= i < |r| - |s| ==> r[i] == fill
    decreases target - |s|
  {
    if |s| < target {
      PadStartKeepsText([fill] + s, target, fill);
      var r := PadStart(s, target, fill);
      assert r[|r| - |s|..] == ([fill] + s)[1..];
    }
  }

  /** `s.substr(start, length)` for non-negative arguments. */
  function Substr(s: string, start: nat, length: nat): (r: string)
    ensures start + length <= |s| ==> r == s[start..start + length]
    ensures start >= |s| ==> r == []
  {
    var from := if start < |s| then start else |s|;
    var to := if start + length < |s| then start + length else |s|;
    s[from..to]
  }

  /** `s.replace(c, '')`: the first occurrence of `c`, if any, is removed. */
  function RemoveFirst(s: string, c: char): (r: string)
    ensures s != [] && s[0] == c ==> r == s[1..]
  {
    if s == [] then []
    else if s[0] == c then s[1..]
    else [s[0]] + RemoveFirst(s[1..], c)
  }

  /** Without an occurrence nothing is removed; with one, exactly the first
      occurrence is removed and the rest keeps its order. */
  lemma {:induction false} RemoveFirstRemovesOne(s: string, c: char)
    ensures c !in s ==> RemoveFirst(s, c) == s
    ensures c in s ==> |RemoveFirst(s, c)| == |s| - 1
    ensures c in s ==> exists i :: 0 <= i < |s| && s[i] == c && c !in s[..i]
                                   && RemoveFirst(s, c) == s[..i] + s[i + 1..]
  {
    if c in s {
      var i := FirstOccurrence(s, c);
    } else {
      RemoveFirstAbsent(s, c);
    }
  }

  /** The position of the first `c` in `s`, and what removing it leaves. */
  lemma {:induction false} FirstOccurrence(s: string, c: char) returns (i: nat)
    requires c in s
    ensures i < |s| && s[i] == c && c !in s[..i]
    ensures RemoveFirst(s, c) == s[..i] + s[i + 1..]
  {
    if s[0] == c {
      i := 0;
      assert s[..0] == [];
    } else {
      var rest := s[1..];
      assert s == [s[0]] + rest;
      var j := FirstOccurrence(rest, c);
      i := j + 1;
      assert s[..i] == [s[0]] + rest[..j];
      assert s[i + 1..] == rest[j + 1..];
      assert RemoveFirst(s, c) == [s[0]] + RemoveFirst(rest, c);
    }
  }

  lemma {:induction false} RemoveFirstAbsent(s: string, c: char)
    requires c !in s
    ensures RemoveFirst(s, c) == s
  {
    if s != [] {
      assert c !in s[1..];
      RemoveFirstAbsent(s[1..], c);
    }
  }

  /** Removing a character adds no radix-16 digit. */
  lemma {:induction false} RemoveFirstNoHexDigit(s: string, c: char)
    requires NoHexDigit(s)
    ensures NoHexDigit(RemoveFirst(s, c))
  {
    if s != [] && s[0] != c {
      assert forall x :: x in s[1..] ==> x in s;
      RemoveFirstNoHexDigit(s[1..], c);
    }
  }

  // ---------------------------------------------------------------------------
  // Arithmetic
  // ---------------------------------------------------------------------------

  /** `Math.floor` on an exact real. */
  function Floor(x: real): (n: int)
    ensures n as real <= x < n as real + 1.0
  {
    x.Floor
  }

  /** `Math.round`: the nearest integer, halves rounded towards +infinity. */
  function Round(x: real): (n: int)
    ensures x - 0.5 < n as real <= x + 0.5
  {
    Floor(x + 0.5)
  }

  /** The integer part of `x`, rounded towards zero. */
  function Truncate(x: real): (n: int)
    ensures x >= 0.0 ==> n == Floor(x)
    ensures x < 0.0 ==> x <= n as real <= 0.0 && n as real < x + 1.0
  {
    if x >= 0.0 then Floor(x) else -Floor(-x)
  }

  /** The `%` operator of JavaScript on numbers: the remainder of a division
      truncated towards zero, so it takes the sign of the dividend. */
  function RealRemainder(x: real, d: real): (r: real)
    requires d != 0.0
  {
    x - d * Truncate(x / d) as real
  }

  /** The `%` operator of JavaScript on integral numbers, for a positive divisor:
      the result has the sign of the dividend and a magnitude below the divisor. */
  function IntRemainder(a: int, d: int): (r: int)
    requires d > 0
    ensures a >= 0 ==> 0 <= r < d
    ensures a < 0 ==> -d < r <= 0
  {
    if a >= 0 then a % d else -((-a) % d)
  }

  /** A dividend in `[0, d]` is left alone, except `d` itself, which wraps to 0. */
  lemma IntRemainderWraps(a: int, d: int)
    requires d > 0 && 0 <= a <= d
    ensures IntRemainder(a, d) == if a < d then a else 0
    ensures IntRemainder(a, d) == a % d
  {
    if a < d {
      ModOfSmall(a, d);
    } else {
      ModOfSelf(d);
    }
  }

  lemma ModOfSmall(a: int, d: int)
    requires 0 <= a < d
    ensures a % d == a
  {
  }

  lemma ModOfSelf(d: int)
    requires d > 0
    ensures d % d == 0
  {
  }

  /** For a non-negative number, `x % 1` is its fractional part. */
  lemma FractionalPart(x: real)
    requires x >= 0.0
    ensures 0.0 <= RealRemainder(x, 1.0) < 1.0
    ensures Floor(x) as real + RealRemainder(x, 1.0) == x
  {
    assert x / 1.0 == x;
  }
}
