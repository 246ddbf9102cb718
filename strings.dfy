/**
 * Text helpers the Python code gets from `str`: decimal formatting of
 * integers (`str(n)`, f-strings), `str.isdigit`, `int(...)` and `float(...)`
 * of digit strings, `sep.join(parts)`, `str.rfind`, `str.lower` and
 * `str.startswith`.  Only the ASCII behaviour of these is modelled.
 */
module Strings {
  import opened Wrappers

  predicate IsDigit(c: char) {
    '0' <= c <= '9'
  }

  /** `s.isdigit()`: non-empty and made of decimal digits only. */
  predicate IsDigitString(s: string) {
    |s| > 0 && forall i :: 0 <= i < |s| ==> IsDigit(s[i])
  }

  function DigitChar(d: nat): (c: char)
    requires d < 10
    ensures IsDigit(c) && c as int - '0' as int == d
  {
    (d + '0' as int) as char
  }

  function DigitValue(c: char): (d: nat)
    requires IsDigit(c)
    ensures d < 10 && DigitChar(d) == c
  {
    c as int - '0' as int
  }

  /** `str(n)` for a non-negative integer: its decimal digits, most significant first. */
  function NatToString(n: nat): (s: string)
    ensures IsDigitString(s)
    ensures n < 10 <==> |s| == 1
    decreases n
  {
    if n < 10 then [DigitChar(n)] else NatToString(n / 10) + [DigitChar(n % 10)]
  }

  /** `str(i)` for any integer: a minus sign in front of the digits of a negative number. */
  function IntToString(i: int): (s: string)
    ensures |s| > 0
    ensures i >= 0 ==> s == NatToString(i)
    ensures i < 0 ==> s == "-" + NatToString(-i)
  {
    if i < 0 then "-" + NatToString(-i) else NatToString(i)
  }

  /** The value of a string of decimal digits (empty reads as 0). */
  function DigitsValue(s: string): nat
    requires forall i :: 0 <= i < |s| ==> IsDigit(s[i])
  {
    if s == [] then 0 else DigitsValue(s[..|s| - 1]) * 10 + DigitValue(s[|s| - 1])
  }

  /** `int(str(n)) == n`: reading back the digits that `NatToString` writes gives `n`. */
  lemma {:induction false} DigitsValueOfNatToString(n: nat)
    ensures DigitsValue(NatToString(n)) == n
    decreases n
  {
    var s := NatToString(n);
    if n >= 10 {
      DigitsValueOfNatToString(n / 10);
      assert s[..|s| - 1] == NatToString(n / 10);
    }
  }

  /** `str(i)` never contains the character `c` when `c` is neither a digit nor `-`. */
  lemma IntToStringAvoids(i: int, c: char)
    requires !IsDigit(c) && c != '-'
    ensures c !in IntToString(i)
  {
  }

  function Pow10(n: nat): (p: nat)
    ensures p > 0
  {
    if n == 0 then 1 else 10 * Pow10(n - 1)
  }

  /** Index of the first occurrence of `c` in `s`, if any. */
  function FirstIndexOf(s: string, c: char): (r: Option<nat>)
    ensures r.None? <==> c !in s
    ensures r.Some? ==> r.value < |s| && s[r.value] == c && c !in s[..r.value]
  {
    if s == [] then None
    else if s[0] == c then Some(0)
    else match FirstIndexOf(s[1..], c)
      case None => None
      case Some(k) =>
        assert s[..k + 1] == [s[0]] + s[1..][..k];
        Some(k + 1)
  }

  /** `s.rfind(c)`: index of the last occurrence of `c` in `s`, if any. */
  function LastIndexOf(s: string, c: char): (r: Option<nat>)
    ensures r.None? <==> c !in s
    ensures r.Some? ==> r.value < |s| && s[r.value] == c && c !in s[r.value + 1..]
  {
    if s == [] then None
    else if s[|s| - 1] == c then Some(|s| - 1)
    else
      var r := LastIndexOf(s[..|s| - 1], c);
      assert r.Some? ==> s[r.value + 1..] == s[..|s| - 1][r.value + 1..] + [s[|s| - 1]];
      assert r.None? ==> s == s[..|s| - 1] + [s[|s| - 1]];
      r
  }

  /** Appending a string that avoids `c` does not move the last occurrence of `c`. */
  lemma {:induction false} LastIndexOfAppend(s: string, t: string, c: char)
    requires c !in t
    ensures LastIndexOf(s + t, c) == LastIndexOf(s, c)
    decreases |t|
  {
    if t != [] {
      var u := s + t[..|t| - 1];
      assert s + t == u + [t[|t| - 1]];
      assert (s + t)[..|s + t| - 1] == u;
      assert t[..|t| - 1] + [t[|t| - 1]] == t;
      LastIndexOfAppend(s, t[..|t| - 1], c);
    } else {
      assert s + t == s;
    }
  }

  /** A string that ends in `c` has its last `c` at its end. */
  lemma LastIndexOfEnd(s: string, c: char)
    ensures LastIndexOf(s + [c], c) == Some(|s|)
  {
    var t := s + [c];
    assert |t| == |s| + 1;
    assert t[|s|] == c;
  }

  /** `sep.join(parts)`. */
  function Join(sep: string, parts: seq<string>): string {
    if |parts| == 0 then ""
    else if |parts| == 1 then parts[0]
    else parts[0] + sep + Join(sep, parts[1..])
  }

  /** `s.count(c)` for one character. */
  function CountChar(s: string, c: char): nat {
    if s == [] then 0 else (if s[0] == c then 1 else 0) + CountChar(s[1..], c)
  }

  lemma {:induction false} CountCharAppend(a: string, b: string, c: char)
    ensures CountChar(a + b, c) == CountChar(a, c) + CountChar(b, c)
    decreases |a|
  {
    if a == [] {
      assert a + b == b;
    } else {
      assert (a + b)[1..] == a[1..] + b;
      CountCharAppend(a[1..], b, c);
    }
  }

  /** A string that avoids `c` counts no `c`. */
  lemma {:induction false} CountCharAbsent(s: string, c: char)
    requires c !in s
    ensures CountChar(s, c) == 0
    decreases |s|
  {
    if s != [] {
      assert c !in s[1..] by {
        assert forall i :: 0 <= i < |s[1..]| ==> s[1..][i] == s[i + 1];
      }
      CountCharAbsent(s[1..], c);
    }
  }

  /**
   * A join of parts that each hold `c` exactly once, with a separator free
   * of `c`, holds `c` exactly once per part.
   */
  lemma {:induction false} CountCharJoin(sep: string, parts: seq<string>, c: char)
    requires CountChar(sep, c) == 0
    requires forall i :: 0 <= i < |parts| ==> CountChar(parts[i], c) == 1
    ensures CountChar(Join(sep, parts), c) == |parts|
    decreases |parts|
  {
    if |parts| > 1 {
      CountCharJoin(sep, parts[1..], c);
      CountCharAppend(parts[0], sep, c);
      CountCharAppend(parts[0] + sep, Join(sep, parts[1..]), c);
    }
  }

  /** A byte of a `bytes` object. */
  type Byte = b: int | 0 <= b < 256

  /**
   * `bs.decode('utf-8')` for ASCII bytes; a byte of 128 or more is left to
   * the `None` case (a multi-byte sequence or an error).
   */
  function DecodeAscii(bs: seq<Byte>): (r: Option<string>)
    ensures r.Some? <==> forall i :: 0 <= i < |bs| ==> bs[i] < 128
    ensures r.Some? ==> |r.value| == |bs| && forall i :: 0 <= i < |bs| ==> r.value[i] as int == bs[i]
  {
    if bs == [] then Some([])
    else if bs[0] >= 128 then None
    else match DecodeAscii(bs[1..])
      case None => None
      case Some(rest) => Some([bs[0] as char] + rest)
  }

  /** A join avoids `c` when the separator and every part do. */
  lemma {:induction false} JoinAvoids(sep: string, parts: seq<string>, c: char)
    requires c !in sep
    requires forall i :: 0 <= i < |parts| ==> c !in parts[i]
    ensures c !in Join(sep, parts)
    decreases |parts|
  {
    if |parts| > 1 {
      JoinAvoids(sep, parts[1..], c);
    }
  }

  /** `s.startswith(p)`. */
  predicate StartsWith(s: string, p: string) {
    |p| <= |s| && s[..|p|] == p
  }

  function ToLowerChar(c: char): char {
    if 'A' <= c <= 'Z' then (c as int - 'A' as int + 'a' as int) as char else c
  }

  /** `s.lower()` on ASCII letters; every other character is kept. */
  function ToLower(s: string): (r: string)
    ensures |r| == |s|
    ensures forall i :: 0 <= i < |s| ==> r[i] == ToLowerChar(s[i])
  {
    if s == [] then [] else [ToLowerChar(s[0])] + ToLower(s[1..])
  }

  /**
   * `float(s)` restricted to plain decimal text: an optional `-` or `+`, digits,
   * and an optional fractional part after one `.`, with at least one digit
   * somewhere.  Anything else is the `ValueError` case, `None`.
   */
  function ParseDecimal(s: string): Option<real> {
    if |s| > 0 && s[0] == '-' then
      match ParseUnsigned(s[1..])
      case Some(v) => Some(-v)
      case None => None
    else if |s| > 0 && s[0] == '+' then ParseUnsigned(s[1..])
    else ParseUnsigned(s)
  }

  predicate AllDigits(s: string) {
    forall i :: 0 <= i < |s| ==> IsDigit(s[i])
  }

  function ParseUnsigned(s: string): Option<real> {
    match FirstIndexOf(s, '.')
    case None =>
      if IsDigitString(s) then Some(DigitsValue(s) as real) else None
    case Some(k) =>
      var whole, frac := s[..k], s[k + 1..];
      if AllDigits(whole) && AllDigits(frac) && |whole| + |frac| > 0 then
        Some(DigitsValue(whole) as real + DigitsValue(frac) as real / Pow10(|frac|) as real)
      else None
  }

  /** The digits of a natural number read back, without a sign, as that number. */
  lemma NatToStringParses(n: nat)
    ensures ParseUnsigned(NatToString(n)) == Some(n as real)
  {
    var d := NatToString(n);
    IntToStringAvoids(n, '.');
    assert FirstIndexOf(d, '.') == None;
    DigitsValueOfNatToString(n);
  }

  /** A leading minus negates what the rest parses to. */
  lemma ParseNegated(d: string, v: real)
    requires ParseUnsigned(d) == Some(v)
    ensures ParseDecimal("-" + d) == Some(-v)
  {
    var s := "-" + d;
    assert s[0] == '-' && s[1..] == d;
  }

  /** A leading plus leaves what the rest parses to unchanged: `float("+1.5") == 1.5`. */
  lemma ParsePlus(d: string, v: real)
    requires ParseUnsigned(d) == Some(v)
    ensures ParseDecimal("+" + d) == Some(v)
  {
    var s := "+" + d;
    assert s[0] == '+' && s[1..] == d;
  }

  /** A sign is read only once: `float("+-1")` and `float("-+1")` raise. */
  lemma SignReadOnce(d: string)
    ensures ParseDecimal("+-" + d) == None && ParseDecimal("-+" + d) == None
  {
    var p, m := "+-" + d, "-+" + d;
    assert p[0] == '+' && p[1..] == "-" + d;
    assert m[0] == '-' && m[1..] == "+" + d;
    SignedIsNotUnsigned("-" + d);
    SignedIsNotUnsigned("+" + d);
  }

  /** Unsigned text holds no sign in front. */
  lemma SignedIsNotUnsigned(s: string)
    requires |s| > 0 && (s[0] == '-' || s[0] == '+')
    ensures ParseUnsigned(s) == None
  {
    match FirstIndexOf(s, '.')
    case None =>
    case Some(k) =>
      if k > 0 {
        assert s[..k][0] == s[0];
      }
  }

  /** Text that does not start with a sign parses as it stands. */
  lemma ParseUnsignedText(d: string, v: real)
    requires d != [] && d[0] != '-' && ParseUnsigned(d) == Some(v)
    ensures ParseDecimal(d) == Some(v)
  {
    if d[0] == '+' {
      SignedIsNotUnsigned(d);
      assert false;
    }
  }

  /** `float(str(i)) == i`: the decimal text of an integer parses back to it. */
  lemma IntToStringParses(i: int)
    ensures ParseDecimal(IntToString(i)) == Some(i as real)
  {
    if i < 0 {
      NegativeTextParses(-i);
      assert IntToString(i) == "-" + NatToString(-i);
    } else {
      NaturalTextParses(i);
    }
  }

  /** The text `-n` of a negative number parses to `-n`. */
  lemma NegativeTextParses(n: nat)
    ensures ParseDecimal("-" + NatToString(n)) == Some(-(n as real))
  {
    NatToStringParses(n);
    ParseNegated(NatToString(n), n as real);
  }

  /** The digits of a natural number parse to it. */
  lemma NaturalTextParses(n: nat)
    ensures ParseDecimal(NatToString(n)) == Some(n as real)
  {
    var d := NatToString(n);
    NatToStringParses(n);
    assert IsDigit(d[0]);
    ParseUnsignedText(d, n as real);
  }
}
