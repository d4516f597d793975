/** Positional numerals: Python's `str(int)`, `hex`, and `int(text, base)` on plain digits. */
module Numerals {
  import opened Basics

  /** The two bases the program reads and prints. */
  type Base = b: nat | b == 10 || b == 16 witness 10

  /** The value of a digit character, or 16 when it is none. Both letter cases count. */
  function DigitValue(c: char): (v: nat)
    ensures v <= 16
  {
    if '0' <= c <= '9' then c as int - '0' as int
    else if 'a' <= c <= 'f' then c as int - 'a' as int + 10
    else if 'A' <= c <= 'F' then c as int - 'A' as int + 10
    else 16
  }

  predicate IsDigit(c: char, base: Base) {
    DigitValue(c) < base
  }

  predicate AllDigits(s: string, base: Base) {
    forall i :: 0 <= i < |s| ==> IsDigit(s[i], base)
  }

  function DigitChar(d: nat): (c: char)
    requires d < 16
    ensures DigitValue(c) == d && LowerChar(c) == c
  {
    if d < 10 then (d + '0' as int) as char else (d - 10 + 'a' as int) as char
  }

  lemma DigitCharOf(c: char)
    requires DigitValue(c) < 16
    ensures DigitChar(DigitValue(c)) == LowerChar(c)
    ensures DigitValue(LowerChar(c)) == DigitValue(c)
  {
  }

  /** base * n, written so that the solver sees linear arithmetic. */
  function Scale(base: Base, n: nat): (m: nat)
    ensures m == base * n
  {
    if base == 10 then 10 * n else 16 * n
  }

  function Quot(n: nat, base: Base): (q: nat)
    ensures n >= base ==> 0 < q < n
    ensures n < base ==> q == 0
  {
    if base == 10 then n / 10 else n / 16
  }

  function Rem(n: nat, base: Base): (r: nat)
    ensures r < base && n == Scale(base, Quot(n, base)) + r
  {
    if base == 10 then n % 10 else n % 16
  }

  function Pow(base: Base, k: nat): (p: nat)
    ensures p > 0
  {
    if k == 0 then 1 else Scale(base, Pow(base, k - 1))
  }

  /** Big-endian digits without superfluous leading zeros. */
  function ToText(n: nat, base: Base): (s: string)
    ensures s != [] && AllDigits(s, base)
  {
    if n < base then [DigitChar(n)] else ToText(Quot(n, base), base) + [DigitChar(Rem(n, base))]
  }

  /** `int(s, base)` for a string of plain digits. */
  function OfText(s: string, base: Base): nat
    requires AllDigits(s, base)
  {
    if s == [] then 0 else Scale(base, OfText(s[..|s| - 1], base)) + DigitValue(s[|s| - 1])
  }

  function Str(n: nat): string {
    ToText(n, 10)
  }

  /** No superfluous leading zero: the shape of `^(0|[1-9][0-9]*)$`. */
  predicate Canonical(s: string, base: Base) {
    s != [] && AllDigits(s, base) && (s[0] == '0' ==> |s| == 1)
  }

  lemma OfTextSnoc(s: string, c: char, base: Base)
    requires AllDigits(s, base) && IsDigit(c, base)
    ensures AllDigits(s + [c], base)
    ensures OfText(s + [c], base) == Scale(base, OfText(s, base)) + DigitValue(c)
  {
    assert (s + [c])[..|s + [c]| - 1] == s;
  }

  lemma {:induction false} ToTextCanonical(n: nat, base: Base)
    ensures Canonical(ToText(n, base), base)
    ensures Lower(ToText(n, base)) == ToText(n, base)
    ensures n > 0 ==> ToText(n, base)[0] != '0'
    decreases n
  {
    if n >= base {
      ToTextCanonical(Quot(n, base), base);
    }
  }

  /** Reading back the digits of `n` gives `n`. */
  lemma {:induction false} ReadBack(n: nat, base: Base)
    ensures OfText(ToText(n, base), base) == n
    decreases n
  {
    if n < base {
      OfTextSnoc([], DigitChar(n), base);
      assert [] + [DigitChar(n)] == ToText(n, base);
    } else {
      ReadBack(Quot(n, base), base);
      OfTextSnoc(ToText(Quot(n, base), base), DigitChar(Rem(n, base)), base);
    }
  }

  lemma ToTextSnoc(q: nat, d: nat, base: Base)
    requires d < base && q > 0
    ensures ToText(Scale(base, q) + d, base) == ToText(q, base) + [DigitChar(d)]
  {
    if base == 10 {
      assert (10 * q + d) / 10 == q && (10 * q + d) % 10 == d;
    } else {
      assert (16 * q + d) / 16 == q && (16 * q + d) % 16 == d;
    }
  }

  lemma OfTextEmpty(base: Base)
    ensures OfText([], base) == 0
  {
  }

  lemma OneDigit(c: char, base: Base)
    requires IsDigit(c, base)
    ensures AllDigits([c], base) && OfText([c], base) == DigitValue(c)
    ensures ToText(DigitValue(c), base) == [DigitChar(DigitValue(c))]
    ensures c != '0' ==> DigitValue(c) > 0
  {
    hide OfText;
    OfTextEmpty(base);
    OfTextSnoc([], c, base);
    assert [] + [c] == [c];
  }

  /** The digits of a number are its only canonical numeral, up to letter case. */
  lemma {:induction false} CanonicalUnique(s: string, base: Base)
    requires Canonical(s, base)
    ensures ToText(OfText(s, base), base) == Lower(s)
    ensures s[0] != '0' ==> OfText(s, base) > 0
    decreases |s|
  {
    hide OfText, ToText, DigitValue, LowerChar;
    var init, last := s[..|s| - 1], s[|s| - 1];
    assert s == init + [last];
    assert IsDigit(last, base);
    DigitCharOf(last);
    assert Lower(s) == Lower(init) + [LowerChar(last)];
    if |s| == 1 {
      OneDigit(last, base);
      assert s == [last];
    } else {
      CanonicalUnique(init, base);
      OfTextSnoc(init, last, base);
      ToTextSnoc(OfText(init, base), DigitValue(last), base);
    }
  }

  lemma {:induction false} OfTextConcat(a: string, b: string, base: Base)
    requires AllDigits(a, base) && AllDigits(b, base)
    ensures AllDigits(a + b, base)
    ensures OfText(a + b, base) == OfText(a, base) * Pow(base, |b|) + OfText(b, base)
    decreases |b|
  {
    if b == [] {
      assert a + b == a;
    } else {
      var c, last := b[..|b| - 1], b[|b| - 1];
      OfTextConcat(a, c, base);
      assert a + b == (a + c) + [last];
      OfTextSnoc(a + c, last, base);
      ScaleProduct(base, OfText(a, base), Pow(base, |c|));
    }
  }

  lemma ScaleProduct(base: Base, x: nat, y: nat)
    ensures x * Scale(base, y) == Scale(base, x * y)
    ensures Scale(base, x) * y == Scale(base, x * y)
  {
    if base == 10 {
      assert x * (10 * y) == 10 * (x * y);
      assert (10 * x) * y == 10 * (x * y);
    } else {
      assert x * (16 * y) == 16 * (x * y);
      assert (16 * x) * y == 16 * (x * y);
    }
  }

  lemma {:induction false} OfTextBound(s: string, base: Base)
    requires AllDigits(s, base)
    ensures OfText(s, base) < Pow(base, |s|)
  {
    if s != [] {
      assert IsDigit(s[|s| - 1], base);
      OfTextBound(s[..|s| - 1], base);
    }
  }

  lemma {:induction false} LeadingZeros(k: nat, s: string, base: Base)
    requires AllDigits(s, base)
    ensures AllDigits(Repeat('0', k) + s, base)
    ensures OfText(Repeat('0', k) + s, base) == OfText(s, base)
    decreases |s|, k
  {
    var z := Repeat('0', k);
    if s == [] {
      assert z + s == z;
      if k > 0 {
        LeadingZeros(k - 1, [], base);
        assert z == (Repeat('0', k - 1) + []) + ['0'];
        OfTextSnoc(Repeat('0', k - 1) + [], '0', base);
      }
    } else {
      var init, last := s[..|s| - 1], s[|s| - 1];
      assert IsDigit(last, base);
      LeadingZeros(k, init, base);
      assert z + s == (z + init) + [last];
      OfTextSnoc(z + init, last, base);
    }
  }

  lemma {:induction false} OfTextLower(s: string, base: Base)
    requires AllDigits(s, base)
    ensures AllDigits(Lower(s), base) && OfText(Lower(s), base) == OfText(s, base)
    decreases |s|
  {
    if s != [] {
      var init, last := s[..|s| - 1], s[|s| - 1];
      assert IsDigit(last, base);
      OfTextLower(init, base);
      DigitCharOf(last);
      assert Lower(s) == Lower(init) + [LowerChar(last)];
      OfTextSnoc(Lower(init), LowerChar(last), base);
    }
  }

  /** A fixed-width numeral is the padded numeral of its value, up to letter case. */
  lemma {:induction false} FixedWidth(s: string, base: Base)
    requires s != [] && AllDigits(s, base)
    ensures RJust(ToText(OfText(s, base), base), |s|, '0') == Lower(s)
    ensures |ToText(OfText(s, base), base)| <= |s|
    decreases |s|
  {
    hide ToText, OfText, DigitValue, RJust, Lower, Repeat;
    if s[0] == '0' && |s| > 1 {
      var tail := s[1..];
      ZeroFirst(tail);
      assert s == "0" + tail;
      LeadingZeros(1, tail, base);
      FixedWidth(tail, base);
      PadOneMore(ToText(OfText(s, base), base), |tail|);
    } else {
      CanonicalUnique(s, base);
      NoPadding(ToText(OfText(s, base), base), |s|);
    }
  }

  lemma ZeroFirst(tail: string)
    ensures Lower("0" + tail) == "0" + Lower(tail) && Repeat('0', 1) == "0"
  {
  }

  lemma NoPadding(digits: string, width: nat)
    requires |digits| >= width
    ensures RJust(digits, width, '0') == digits
  {
  }

  lemma PadOneMore(digits: string, width: nat)
    requires |digits| <= width
    ensures RJust(digits, width + 1, '0') == "0" + RJust(digits, width, '0')
  {
    assert Repeat('0', width + 1 - |digits|) == "0" + Repeat('0', width - |digits|);
  }

  /** A number below base^k has at most k digits. */
  lemma {:induction false} DigitCount(n: nat, base: Base, k: nat)
    requires k >= 1 && n < Pow(base, k)
    ensures |ToText(n, base)| <= k
    decreases k
  {
    if n >= base {
      DigitCount(Quot(n, base), base, k - 1);
    }
  }

  lemma {:induction false} PowAdd(base: Base, m: nat, k: nat)
    ensures Pow(base, m + k) == Pow(base, m) * Pow(base, k)
  {
    if m > 0 {
      PowAdd(base, m - 1, k);
      ScaleProduct(base, Pow(base, m - 1), Pow(base, k));
    }
  }

  /** `^0x[0-9a-fA-F]{n}$`. */
  predicate IsHex(s: string, n: nat) {
    |s| == 2 + n && s[0] == '0' && s[1] == 'x' && AllDigits(s[2..], 16)
  }

  /** `int(s, 16)` on plain digits, with or without the 0x prefix; None stands for `ValueError`. */
  function ParseHex(s: string): Option<nat> {
    var digits := if |s| >= 2 && s[0] == '0' && LowerChar(s[1]) == 'x' then s[2..] else s;
    if digits != [] && AllDigits(digits, 16) then Some(OfText(digits, 16)) else None
  }

  /** `int(s, 16)` with an optional sign before the optional prefix. */
  function ParseSignedHex(s: string): Option<int> {
    var signed := StartsWith(s, "-") || StartsWith(s, "+");
    match ParseHex(if signed then s[1..] else s)
    case None => None
    case Some(n) => Some(if StartsWith(s, "-") then 0 - n as int else n)
  }

  /** Letter case, of the prefix too, does not change the number that `int(s, 16)` reads. */
  lemma ParseHexLower(s: string)
    ensures ParseHex(Lower(s)) == ParseHex(s)
  {
    var digits := if |s| >= 2 && s[0] == '0' && LowerChar(s[1]) == 'x' then s[2..] else s;
    var prefixed := |s| >= 2 && s[0] == '0' && LowerChar(s[1]) == 'x';
    assert if prefixed then Lower(s)[2..] == Lower(digits) else Lower(s) == Lower(digits);
    if AllDigits(digits, 16) {
      OfTextLower(digits, 16);
    } else {
      var i :| 0 <= i < |digits| && !IsDigit(digits[i], 16);
      assert !IsDigit(Lower(digits)[i], 16);
    }
  }

  // ---- what signed hexadecimal text denotes ----

  ghost predicate HexParts(s: string, sign: string, prefix: string, digits: string) {
    && (sign == "" || sign == "+" || sign == "-") && (prefix == "" || prefix == "0x" || prefix == "0X")
    && digits != [] && AllDigits(digits, 16) && s == sign + (prefix + digits)
  }

  /** `s` writes `n` in base 16: an optional sign, an optional prefix and digits. */
  ghost predicate HexNumeral(s: string, n: int) {
    exists sign, prefix, digits :: HexPartsWrite(s, sign, prefix, digits, n)
  }

  ghost predicate HexPartsWrite(s: string, sign: string, prefix: string, digits: string, n: int) {
    && HexParts(s, sign, prefix, digits)
    && n == if sign == "-" then 0 - OfText(digits, 16) as int else OfText(digits, 16)
  }

  lemma UnsignedReads(prefix: string, digits: string)
    requires HexParts(prefix + digits, "", prefix, digits)
    ensures ParseHex(prefix + digits) == Some(OfText(digits, 16))
    ensures !StartsWith(prefix + digits, "-") && !StartsWith(prefix + digits, "+")
  {
    hide OfText;
    var s := prefix + digits;
    assert IsDigit(digits[0], 16);
    assert s[..1] == [s[0]];
    if prefix == "" {
      assert s == digits;
      assert |digits| >= 2 ==> IsDigit(digits[1], 16);
    } else {
      assert s[2..] == digits;
    }
  }

  lemma HexPartsRead(s: string, sign: string, prefix: string, digits: string)
    requires HexParts(s, sign, prefix, digits)
    ensures ParseSignedHex(s) == Some(if sign == "-" then 0 - OfText(digits, 16) as int else OfText(digits, 16))
  {
    hide OfText, ParseHex;
    var rest := prefix + digits;
    UnsignedReads(prefix, digits);
    if sign == "" {
      assert s == rest;
    } else {
      assert s[1..] == rest && s[..1] == sign;
    }
  }

  lemma UnsignedParts(s: string) returns (prefix: string, digits: string)
    requires ParseHex(s).Some?
    ensures HexParts(s, "", prefix, digits)
  {
    hide OfText;
    if |s| >= 2 && s[0] == '0' && LowerChar(s[1]) == 'x' {
      prefix, digits := s[..2], s[2..];
      assert s[..2] == [s[0], s[1]];
    } else {
      prefix, digits := "", s;
    }
  }

  lemma ReadIsNumeral(s: string)
    requires ParseSignedHex(s).Some?
    ensures HexNumeral(s, ParseSignedHex(s).value)
  {
    hide OfText, ParseHex, AllDigits;
    var signed := StartsWith(s, "-") || StartsWith(s, "+");
    var sign, rest := if signed then s[..1] else "", if signed then s[1..] else s;
    var prefix, digits := UnsignedParts(rest);
    assert s == sign + (prefix + digits);
    assert HexParts(s, sign, prefix, digits);
    HexPartsRead(s, sign, prefix, digits);
    assert HexPartsWrite(s, sign, prefix, digits, ParseSignedHex(s).value);
  }

  /** `int(s, 16)` reads exactly the numbers written so, and fails on every other text. */
  lemma SignedHexReads(s: string, n: int)
    ensures ParseSignedHex(s) == Some(n) <==> HexNumeral(s, n)
  {
    hide OfText, ParseSignedHex, HexParts;
    if ParseSignedHex(s).Some? {
      ReadIsNumeral(s);
    }
    if HexNumeral(s, n) {
      var sign, prefix, digits :| HexPartsWrite(s, sign, prefix, digits, n);
      HexPartsRead(s, sign, prefix, digits);
    }
  }

  /** The prefixed digits of a number, in whatever letter case, write it. */
  lemma PrefixedDigitsWrite(s: string, n: nat)
    requires Lower(s) == "0x" + ToText(n, 16)
    ensures HexNumeral(s, n)
  {
    hide OfText, ToText;
    var prefix, digits := s[..2], s[2..];
    assert s == prefix + digits && prefix == [s[0], s[1]];
    assert Lower(s)[0] == '0' && Lower(s)[1] == 'x';
    assert Lower(digits) == Lower(s)[2..] == ToText(n, 16);
    forall i | 0 <= i < |digits| ensures IsDigit(digits[i], 16) {
      assert IsDigit(Lower(digits)[i], 16);
      LowerDigit(digits[i]);
    }
    OfTextLower(digits, 16);
    ReadBack(n, 16);
    assert HexPartsWrite(s, "", prefix, digits, n);
  }

  lemma LowerDigit(c: char)
    ensures DigitValue(LowerChar(c)) == DigitValue(c)
  {
  }
}
