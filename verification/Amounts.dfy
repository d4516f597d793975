/** The two decimal printers: `format_token_amount` and `_atomic_usdc_to_display`. */
module Amounts {
  import opened Basics
  import opened Numerals

  datatype AmountError = NegativeAmount | BadDecimals

  function FormatTokenAmount(amount: int, decimals: int): Result<string, AmountError> {
    if amount < 0 then Err(NegativeAmount)
    else if !(0 <= decimals <= 255) then Err(BadDecimals)
    else Ok(Formatted(amount, decimals))
  }

  function Formatted(amount: nat, decimals: nat): string {
    if decimals == 0 then Str(amount)
    else
      var digits := RJust(Str(amount), decimals + 1, '0');
      var whole := digits[..|digits| - decimals];
      var fraction := RStrip(digits[|digits| - decimals..], '0');
      if fraction == [] then whole else whole + "." + fraction
  }

  /** `int(value)`, `divmod`, a six-digit fraction, and two right strips. */
  function AtomicUsdcToDisplay(value: string): Option<string> {
    if value == [] || !AllDigits(value, 10) then None
    else
      var atomic := OfText(value, 10);
      var whole, fraction := atomic / 1000000, atomic % 1000000;
      Some(RStrip(RStrip(Str(whole) + "." + RJust(Str(fraction), 6, '0'), '0'), '.'))
  }

  /** Every amount and every number of decimals up to 255 is printed, and nothing else. */
  lemma PrintedIff(amount: int, decimals: int)
    ensures FormatTokenAmount(amount, decimals).Ok? <==> amount >= 0 && 0 <= decimals <= 255
    ensures amount >= 0 && 0 <= decimals <= 255 ==> FormatTokenAmount(amount, decimals).value == Formatted(amount,
      decimals)
    ensures amount < 0 ==> FormatTokenAmount(amount, decimals) == Err(NegativeAmount)
  {
  }

  // ---- what a decimal numeral denotes ----

  /** The number mantissa / 10^scale. */
  datatype Decimal = Decimal(mantissa: nat, scale: nat)

  function PointAt(s: string): (i: nat)
    ensures i <= |s|
    ensures i < |s| ==> s[i] == '.'
    ensures forall j :: 0 <= j < i ==> s[j] != '.'
  {
    if s == [] || s[0] == '.' then 0 else 1 + PointAt(s[1..])
  }

  function ParseDecimal(s: string): Option<Decimal> {
    var i := PointAt(s);
    var whole := s[..i];
    var fraction := if i < |s| then s[i + 1..] else [];
    if whole != [] && AllDigits(whole, 10) && AllDigits(fraction, 10) then
      Some(Decimal(OfText(whole + fraction, 10), |fraction|))
    else None
  }

  /** No superfluous leading zeros, no bare point, no trailing zeros in the fraction. */
  predicate CanonicalDecimal(s: string) {
    var i := PointAt(s);
    && Canonical(s[..i], 10)
    && (i < |s| ==> i + 1 < |s| && AllDigits(s[i + 1..], 10) && s[|s| - 1] != '0')
  }

  /** `s` denotes amount / 10^decimals. */
  ghost predicate Denotes(s: string, amount: nat, decimals: nat) {
    && ParseDecimal(s).Some?
    && var d := ParseDecimal(s).value;
    d.scale <= decimals && d.mantissa * Pow(10, decimals - d.scale) == amount
  }

  // ---- splitting digits ----

  /** n without its last d digits. */
  function Dropped(n: nat, d: nat): nat {
    if d == 0 then n else Dropped(n / 10, d - 1)
  }

  /** The last d digits of n, with leading zeros. */
  function Last(n: nat, d: nat): (s: string)
    ensures |s| == d && AllDigits(s, 10)
  {
    if d == 0 then [] else Last(n / 10, d - 1) + [DigitChar(n % 10)]
  }

  lemma StrSnoc(n: nat)
    ensures Str(n) == if n < 10 then [DigitChar(n)] else Str(n / 10) + [DigitChar(n % 10)]
  {
  }

  lemma PadSnoc(s: string, c: char, width: nat)
    requires width >= 1
    ensures s != [] ==> RJust(s + [c], width + 1, '0') == RJust(s, width, '0') + [c]
    ensures RJust([c], width + 1, '0') == Repeat('0', width) + [c]
    ensures RJust(['0'], width, '0') == Repeat('0', width)
  {
    assert s != [] && |s| < width ==> Repeat('0', width - |s|) + (s + [c]) == (Repeat('0', width - |s|) + s) + [c];
  }

  lemma {:induction false} PaddedDigits(n: nat, d: nat)
    ensures RJust(Str(n), d + 1, '0') == Str(Dropped(n, d)) + Last(n, d)
    decreases d
  {
    hide ToText, RJust, Repeat;
    var c := DigitChar(n % 10);
    StrSnoc(n);
    StrSnoc(0);
    assert Str(0) == ['0'];
    if d == 0 {
      OneColumn(Str(n));
    } else {
      PaddedDigits(n / 10, d - 1);
      PadSnoc(Str(n / 10), c, d);
      assert Str(Dropped(n, d)) + Last(n, d) == (Str(Dropped(n / 10, d - 1)) + Last(n / 10, d - 1)) + [c];
    }
  }

  lemma OneColumn(s: string)
    requires s != []
    ensures RJust(s, 1, '0') == s
  {
  }

  lemma {:induction false} DroppedAndLast(n: nat, d: nat)
    ensures n == Dropped(n, d) * Pow(10, d) + OfText(Last(n, d), 10)
    decreases d
  {
    if d > 0 {
      DroppedAndLast(n / 10, d - 1);
      OfTextSnoc(Last(n / 10, d - 1), DigitChar(n % 10), 10);
      ScaleProduct(10, Dropped(n, d), Pow(10, d - 1));
    }
  }

  lemma {:induction false} SplitText(w: string, f: string)
    requires AllDigits(w, 10) && AllDigits(f, 10)
    ensures AllDigits(w + f, 10)
    ensures Dropped(OfText(w + f, 10), |f|) == OfText(w, 10)
    ensures Last(OfText(w + f, 10), |f|) == f
    decreases |f|
  {
    hide OfText;
    if f == [] {
      assert w + f == w;
    } else {
      var g, c := f[..|f| - 1], f[|f| - 1];
      assert IsDigit(c, 10);
      SplitText(w, g);
      assert w + f == (w + g) + [c];
      OfTextSnoc(w + g, c, 10);
      DigitCharOf(c);
      assert LowerChar(c) == c;
    }
  }

  // ---- stripping ----

  lemma {:induction false} StripZeros(f: string)
    requires AllDigits(f, 10)
    ensures var g := RStrip(f, '0');
      && |g| <= |f| && g == f[..|g|] && AllDigits(g, 10)
      && (g != [] ==> g[|g| - 1] != '0')
      && OfText(f, 10) == OfText(g, 10) * Pow(10, |f| - |g|)
    decreases |f|
  {
    if f != [] && f[|f| - 1] == '0' {
      var h := f[..|f| - 1];
      StripZeros(h);
      assert f == h + ['0'];
      OfTextSnoc(h, '0', 10);
      var g := RStrip(f, '0');
      ScaleProduct(10, OfText(g, 10), Pow(10, |h| - |g|));
    }
  }

  lemma {:induction false} StripConcat(a: string, b: string, c: char)
    ensures RStrip(a + b, c) == if RStrip(b, c) == [] then RStrip(a, c) else a + RStrip(b, c)
    decreases |b|
  {
    if b == [] {
      assert a + b == a;
    } else if b[|b| - 1] == c {
      StripConcat(a, b[..|b| - 1], c);
      assert (a + b)[..|a + b| - 1] == a + b[..|b| - 1];
    }
  }

  // ---- what the printer prints ----

  lemma FormattedParts(amount: nat, decimals: nat)
    ensures var whole, fraction := Str(Dropped(amount, decimals)), RStrip(Last(amount, decimals), '0');
      Formatted(amount, decimals) == if fraction == [] then whole else whole + "." + fraction
  {
    PaddedDigits(amount, decimals);
    if decimals > 0 {
      var digits := RJust(Str(amount), decimals + 1, '0');
      var whole := Str(Dropped(amount, decimals));
      assert digits[..|digits| - decimals] == whole;
      assert digits[|digits| - decimals..] == Last(amount, decimals);
    }
  }

  lemma NoPoint(s: string)
    requires AllDigits(s, 10)
    ensures forall i :: 0 <= i < |s| ==> s[i] != '.'
  {
    forall i | 0 <= i < |s| ensures s[i] != '.' { assert IsDigit(s[i], 10); }
  }

  lemma PointFound(whole: string, tail: string)
    requires AllDigits(whole, 10) && (tail != [] ==> tail[0] == '.')
    ensures PointAt(whole + tail) == |whole|
  {
    NoPoint(whole);
    assert forall i :: 0 <= i < |whole| ==> (whole + tail)[i] == whole[i];
    assert tail != [] ==> (whole + tail)[|whole|] == '.';
  }

  function Printed(whole: string, fraction: string): string {
    if fraction == [] then whole else whole + "." + fraction
  }

  /** Where the point of a printed number is, and what stands on either side. */
  lemma PrintedParts(whole: string, g: string)
    requires AllDigits(whole, 10)
    ensures var s := Printed(whole, g);
      && PointAt(s) == |whole| && s[..|whole|] == whole
      && (g == [] ==> |s| == |whole|)
      && (g != [] ==> |s| == |whole| + 1 + |g| && s[|whole| + 1..] == g && s[|s| - 1] == g[|g| - 1])
  {
    hide PointAt;
    var s, tail := Printed(whole, g), if g == [] then [] else "." + g;
    assert s == whole + tail;
    PointFound(whole, tail);
  }

  lemma ParsePrinted(whole: string, g: string)
    requires Canonical(whole, 10) && AllDigits(g, 10) && (g != [] ==> g[|g| - 1] != '0')
    ensures AllDigits(whole + g, 10)
    ensures ParseDecimal(Printed(whole, g)) == Some(Decimal(OfText(whole + g, 10), |g|))
    ensures CanonicalDecimal(Printed(whole, g))
  {
    hide OfText, PointAt, IsDigit, Printed;
    PrintedParts(whole, g);
  }

  /** Every amount is printed exactly, in the canonical form. */
  lemma FormattedIsExact(amount: nat, decimals: nat)
    ensures CanonicalDecimal(Formatted(amount, decimals))
    ensures Denotes(Formatted(amount, decimals), amount, decimals)
  {
    hide ParseDecimal, CanonicalDecimal, Formatted, Dropped, Last, RStrip, ToText, OfText;
    var n, f := Dropped(amount, decimals), Last(amount, decimals);
    var whole, g := Str(n), RStrip(f, '0');
    FormattedParts(amount, decimals);
    ToTextCanonical(n, 10);
    StripZeros(f);
    ParsePrinted(whole, g);
    ReadBack(n, 10);
    OfTextConcat(whole, g, 10);
    DroppedAndLast(amount, decimals);
    PowAdd(10, |g|, decimals - |g|);
    Distribute(n, Pow(10, |g|), OfText(g, 10), Pow(10, decimals - |g|));
  }

  lemma Distribute(n: nat, p: nat, x: nat, q: nat)
    ensures (n * p + x) * q == n * (p * q) + x * q
  {
  }

  lemma DigitsAreLower(s: string)
    requires AllDigits(s, 10)
    ensures Lower(s) == s
  {
    forall i | 0 <= i < |s| ensures LowerChar(s[i]) == s[i] { assert IsDigit(s[i], 10); }
  }

  lemma {:induction false} ZerosVanish(k: nat)
    ensures AllDigits(Repeat('0', k), 10) && OfText(Repeat('0', k), 10) == 0 && RStrip(Repeat('0', k), '0') == []
    decreases k
  {
    LeadingZeros(k, [], 10);
    assert Repeat('0', k) + [] == Repeat('0', k);
    if k > 0 {
      ZerosVanish(k - 1);
      assert Repeat('0', k)[..k - 1] == Repeat('0', k - 1);
    }
  }

  lemma CanonicalParts(s: string)
    requires CanonicalDecimal(s)
    ensures var i := PointAt(s); var f := if i < |s| then s[i + 1..] else [];
      && s == Printed(s[..i], f) && Canonical(s[..i], 10) && AllDigits(f, 10)
      && (f != [] ==> f[|f| - 1] != '0')
      && AllDigits(s[..i] + f, 10) && ParseDecimal(s) == Some(Decimal(OfText(s[..i] + f, 10), |f|))
  {
    hide OfText, IsDigit, PointAt;
    var i := PointAt(s);
    if i < |s| {
      assert s == s[..i] + "." + s[i + 1..];
      assert s[i + 1..][|s[i + 1..]| - 1] == s[|s| - 1];
    } else {
      assert s[..i] == s && s[..i] + [] == s;
    }
  }

  /** Digits followed by zeros up to the wanted scale are the digits of the amount. */
  lemma PartsOfAmount(whole: string, f: string, amount: nat, decimals: nat)
    requires Canonical(whole, 10) && AllDigits(f, 10) && (f != [] ==> f[|f| - 1] != '0')
    requires |f| <= decimals && AllDigits(whole + f, 10)
    requires OfText(whole + f, 10) * Pow(10, decimals - |f|) == amount
    ensures Str(Dropped(amount, decimals)) == whole && RStrip(Last(amount, decimals), '0') == f
  {
    hide OfText, ToText, Dropped, Last, Pow, DigitValue;
    var zeros := Repeat('0', decimals - |f|);
    ZerosVanish(decimals - |f|);
    OfTextConcat(whole + f, zeros, 10);
    OfTextConcat(f, zeros, 10);
    assert whole + (f + zeros) == whole + f + zeros;
    SplitText(whole, f + zeros);
    StripConcat(f, zeros, '0');
    CanonicalUnique(whole, 10);
    DigitsAreLower(whole);
  }

  /** The printed form is the only canonical decimal with that value. */
  lemma FormattedIsOnly(s: string, amount: nat, decimals: nat)
    requires CanonicalDecimal(s) && Denotes(s, amount, decimals)
    ensures s == Formatted(amount, decimals)
  {
    hide PointAt, OfText, ToText, Formatted, Dropped, Last, Pow, CanonicalDecimal, ParseDecimal, RStrip, Canonical,
      IsDigit;
    var i := PointAt(s);
    CanonicalParts(s);
    PartsOfAmount(s[..i], if i < |s| then s[i + 1..] else [], amount, decimals);
    FormattedParts(amount, decimals);
  }

  lemma MillionIsPower()
    ensures Pow(10, 6) == 1000000
  {
    assert Pow(10, 1) == 10 && Pow(10, 2) == 100 && Pow(10, 3) == 1000 && Pow(10, 4) == 10000 && Pow(10, 5) == 100000;
  }

  /** `f"{fraction:06d}"` and `divmod` split the digits where padding and slicing do. */
  lemma MicroUnits(n: nat)
    ensures Dropped(n, 6) == n / 1000000
    ensures Last(n, 6) == RJust(Str(n % 1000000), 6, '0')
  {
    hide OfText, ToText, Dropped, Last, Pow, DigitValue;
    var w, r := Str(n / 1000000), Str(n % 1000000);
    MillionIsPower();
    DigitCount(n % 1000000, 10, 6);
    ReadBack(n / 1000000, 10);
    ReadBack(n % 1000000, 10);
    LeadingZeros(6 - |r|, r, 10);
    var f := RJust(r, 6, '0');
    assert f == Repeat('0', 6 - |r|) + r;
    OfTextConcat(w, f, 10);
    SplitText(w, f);
  }

  /** The two printers agree on every atomic amount. */
  lemma PrintersAgree(value: string)
    requires value != [] && AllDigits(value, 10)
    ensures AtomicUsdcToDisplay(value) == Some(Formatted(OfText(value, 10), 6))
  {
    var n := OfText(value, 10);
    MicroUnits(n);
    FormattedParts(n, 6);
    StripPoint(Str(Dropped(n, 6)), Last(n, 6));
  }

  lemma StripPoint(whole: string, f: string)
    requires whole != [] && AllDigits(whole, 10) && AllDigits(f, 10)
    ensures RStrip(RStrip(whole + "." + f, '0'), '.') == Printed(whole, RStrip(f, '0'))
  {
    var g := RStrip(f, '0');
    StripZeros(f);
    StripConcat(whole + ".", f, '0');
    NoPoint(whole);
    NoPoint(g);
    if g == [] {
      assert RStrip(whole + ".", '0') == whole + ".";
      assert (whole + ".")[..|whole|] == whole;
    }
  }
}
