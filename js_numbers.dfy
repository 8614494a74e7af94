/**
 * JavaScript's conversions between integers and strings, as far as the
 * application uses them: `Number.prototype.toString()` on integers and the
 * global `parseInt` called without a radix.
 */
module JsNumbers {
  import opened Wrappers
  import opened Text

  predicate IsDigit(c: char) {
    '0' <= c <= '9'
  }

  predicate AllDigits(s: string) {
    forall i :: 0 <= i < |s| ==> IsDigit(s[i])
  }

  predicate IsHexDigit(c: char) {
    IsDigit(c) || ('a' <= c <= 'f') || ('A' <= c <= 'F')
  }

  /** A digit of the radix `parseInt` settled on: 16 after a `0x` prefix, 10 otherwise. */
  predicate IsRadixDigit(c: char, radix: nat) {
    if radix == 16 then IsHexDigit(c) else IsDigit(c)
  }

  function DigitValue(c: char): (d: nat)
    requires IsHexDigit(c)
    ensures d < 16
    ensures IsDigit(c) ==> d < 10
  {
    if IsDigit(c) then c as int - '0' as int
    else if 'a' <= c <= 'f' then c as int - 'a' as int + 10
    else c as int - 'A' as int + 10
  }

  function DigitChar(d: nat): (c: char)
    requires d < 10
    ensures IsDigit(c) && DigitValue(c) == d
  {
    ('0' as int + d) as char
  }

  /** The longest prefix of `s` made of digits of `radix`. */
  function DigitPrefix(s: string, radix: nat): (r: string)
    ensures |r| <= |s| && r == s[..|r|]
    ensures forall i :: 0 <= i < |r| ==> IsRadixDigit(r[i], radix)
    ensures |r| == |s| || !IsRadixDigit(s[|r|], radix)
  {
    if s == [] || !IsRadixDigit(s[0], radix) then [] else [s[0]] + DigitPrefix(s[1..], radix)
  }

  /** The number a digit string denotes in `radix`, most significant digit first. */
  function Value(ds: string, radix: nat): nat
    requires forall i :: 0 <= i < |ds| ==> IsRadixDigit(ds[i], radix)
    decreases |ds|
  {
    if ds == [] then 0
    else
      var last := ds[|ds| - 1];
      assert IsRadixDigit(last, radix);
      Value(ds[..|ds| - 1], radix) * radix + DigitValue(last)
  }

  /** `n.toString()` for a non-negative integer. */
  function NatToString(n: nat): (r: string)
    ensures r != [] && AllDigits(r)
    decreases n
  {
    if n < 10 then [DigitChar(n)] else NatToString(n / 10) + [DigitChar(n % 10)]
  }

  /** `n.toString()` for an integer (below 10^21 in magnitude, where JavaScript switches to exponent notation). */
  function IntToString(n: int): string {
    if n < 0 then "-" + NatToString(-n) else NatToString(n)
  }

  /**
   * JavaScript's `parseInt(s)` with no radix; `None` stands for `NaN`:
   * leading white space is skipped, one optional sign is read, then the
   * digits are read as `ParseDigits` says.
   */
  function ParseInt(s: string): Option<int> {
    var t := TrimStart(s);
    if |t| > 0 && t[0] == '-' then
      match ParseDigits(t[1..])
      case None => None
      case Some(v) => Some(-v)
    else if |t| > 0 && t[0] == '+' then ParseDigits(t[1..])
    else ParseDigits(t)
  }

  /**
   * The unsigned part of `parseInt`: a `0x` / `0X` prefix switches to radix
   * 16, then the longest run of digits is read; no digit at all gives `NaN`.
   */
  function ParseDigits(u: string): Option<int> {
    var hex := |u| >= 2 && u[0] == '0' && (u[1] == 'x' || u[1] == 'X');
    var radix := if hex then 16 else 10;
    var ds := DigitPrefix(if hex then u[2..] else u, radix);
    if ds == [] then None else Some(Value(ds, radix))
  }

  // ---------------------------------------------------------------------
  // Facts

  /** Printing a natural number and reading it back in decimal gives the number. */
  lemma {:induction false} ValueOfNatToString(n: nat)
    ensures Value(NatToString(n), 10) == n
    decreases n
  {
    var s := NatToString(n);
    if n >= 10 {
      assert s[..|s| - 1] == NatToString(n / 10);
      ValueOfNatToString(n / 10);
    }
  }

  /** `toString` is injective on natural numbers. */
  lemma NatToStringInjective(a: nat, b: nat)
    requires NatToString(a) == NatToString(b)
    ensures a == b
  {
    ValueOfNatToString(a);
    ValueOfNatToString(b);
  }

  /** Leading zeros do not change a decimal value. */
  lemma {:induction false} ValueLeadingZeros(z: nat, s: string)
    requires AllDigits(s)
    ensures AllDigits(Repeat('0', z) + s)
    ensures Value(Repeat('0', z) + s, 10) == Value(s, 10)
    decreases z, |s|
  {
    var t := Repeat('0', z) + s;
    if s == [] {
      assert t == Repeat('0', z);
      if z > 0 {
        assert t[..|t| - 1] == Repeat('0', z - 1) + [];
        ValueLeadingZeros(z - 1, []);
      }
    } else {
      var init := s[..|s| - 1];
      assert t[..|t| - 1] == Repeat('0', z) + init;
      ValueLeadingZeros(z, init);
    }
  }

  lemma {:induction false} DigitPrefixOfDigits(s: string, rest: string)
    requires AllDigits(s)
    requires rest == [] || !IsDigit(rest[0])
    ensures DigitPrefix(s + rest, 10) == s
    decreases |s|
  {
    if s == [] {
      assert s + rest == rest;
    } else {
      assert (s + rest)[1..] == s[1..] + rest;
      DigitPrefixOfDigits(s[1..], rest);
    }
  }

  /** A printed natural number followed by text that continues no number is read back as digits. */
  lemma ParseDigitsOfPrinted(m: nat, rest: string)
    requires rest == [] || !IsDigit(rest[0])
    requires m == 0 && rest != [] ==> rest[0] != 'x' && rest[0] != 'X'
    ensures ParseDigits(NatToString(m) + rest) == Some(m)
  {
    var digits := NatToString(m);
    var u := digits + rest;
    assert u[0] == digits[0];
    if m != 0 {
      PrintedLeadingDigit(m);
    } else if |u| >= 2 {
      assert u[1] == rest[0];
    }
    DigitPrefixOfDigits(digits, rest);
    ValueOfNatToString(m);
  }

  lemma TrimStartKeeps(s: string)
    requires s == [] || !IsSpace(s[0])
    ensures TrimStart(s) == s
  {
  }

  /**
   * `parseInt` reads back what `toString` printed, even when other text
   * follows, provided that text does not start with a digit (nor, after a
   * lone `0`, with the `x` of a hexadecimal prefix).
   */
  lemma ParseIntOfPrinted(n: int, rest: string)
    requires rest == [] || !IsDigit(rest[0])
    requires n == 0 && rest != [] ==> rest[0] != 'x' && rest[0] != 'X'
    ensures ParseInt(IntToString(n) + rest) == Some(n)
  {
    if n < 0 {
      ParseIntOfPrintedNegative(n, rest);
    } else {
      ParseIntOfPrintedNat(n, rest);
    }
  }

  lemma ParseIntOfPrintedNat(n: nat, rest: string)
    requires rest == [] || !IsDigit(rest[0])
    requires n == 0 && rest != [] ==> rest[0] != 'x' && rest[0] != 'X'
    ensures ParseInt(IntToString(n) + rest) == Some(n)
  {
    var u := NatToString(n) + rest;
    ParseDigitsOfPrinted(n, rest);
    assert IntToString(n) + rest == u;
    ParseIntUnsigned(u);
  }

  lemma ParseIntOfPrintedNegative(n: int, rest: string)
    requires rest == [] || !IsDigit(rest[0])
    requires n < 0
    ensures ParseInt(IntToString(n) + rest) == Some(n)
  {
    var m: nat := -n;
    var u := NatToString(m) + rest;
    ParseDigitsOfPrinted(m, rest);
    assert IntToString(n) + rest == "-" + u;
    ParseIntNegative(u);
  }

  lemma ParseIntNegative(u: string)
    ensures ParseInt("-" + u) == match ParseDigits(u) case None => None case Some(v) => Some(-v)
  {
    var t := "-" + u;
    assert t[0] == '-' && t[1..] == u;
    TrimStartKeeps(t);
  }

  lemma ParseIntUnsigned(u: string)
    requires u != [] && IsDigit(u[0])
    ensures ParseInt(u) == ParseDigits(u)
  {
    TrimStartKeeps(u);
  }

  /** A printed positive number does not start with `0`. */
  lemma {:induction false} PrintedLeadingDigit(m: nat)
    requires m != 0
    ensures NatToString(m)[0] != '0'
    decreases m
  {
    if m >= 10 {
      PrintedLeadingDigit(m / 10);
    }
  }

  /** `parseInt` reads an integer's printed form back (the round trip behind a year given as a number). */
  lemma ParseIntRoundTrip(n: int)
    ensures ParseInt(IntToString(n)) == Some(n)
  {
    ParseIntOfPrinted(n, []);
    assert IntToString(n) + [] == IntToString(n);
  }

  /** Text without a single decimal digit is `NaN` to `parseInt`. */
  lemma ParseIntNoDigit(s: string)
    requires forall i :: 0 <= i < |s| ==> !IsDigit(s[i])
    ensures ParseInt(s) == None
  {
    var t := TrimStart(s);
    assert forall i :: 0 <= i < |t| ==> t[i] == s[|s| - |t| + i];
    if |t| > 0 && (t[0] == '-' || t[0] == '+') {
      ParseDigitsNoDigit(t[1..]);
    } else {
      ParseDigitsNoDigit(t);
    }
  }

  lemma ParseDigitsNoDigit(u: string)
    requires forall i :: 0 <= i < |u| ==> !IsDigit(u[i])
    ensures ParseDigits(u) == None
  {
    if u != [] {
      assert !IsDigit(u[0]);
    }
  }

  /** A non-empty string of decimal digits is read in full, in decimal. */
  lemma ParseIntOfDigits(ds: string)
    requires ds != [] && AllDigits(ds)
    ensures ParseInt(ds) == Some(Value(ds, 10))
  {
    ParseIntUnsigned(ds);
    DigitPrefixOfDigits(ds, []);
    assert ds + [] == ds;
  }
}
