/**
  The numeric coercion applied to one text cell by `pd.to_numeric`
  (dashboard/app.py:24), restricted to plain decimal numerals:
  an optional sign, then digits with at most one decimal point and at
  least one digit in all ("12", "-3", "+4.50", ".5", "7.").
  Numbers are exact rationals (`real`), not floating point.
*/
module Numerals {
  import opened Optional

  predicate IsDigit(c: char) {
    '0' <= c <= '9'
  }

  predicate AllDigits(s: string) {
    forall i :: 0 <= i < |s| ==> IsDigit(s[i])
  }

  /** Characters that may occur in a numeral at all. */
  predicate IsNumeralChar(c: char) {
    IsDigit(c) || c == '.' || c == '-' || c == '+'
  }

  function DigitValue(c: char): (d: nat)
    requires IsDigit(c)
    ensures d < 10
  {
    (c as int - '0' as int) as nat
  }

  /** The value of a run of decimal digits, most significant first ("" is 0). */
  function DigitsValue(s: string): (n: nat)
    requires AllDigits(s)
    ensures n < Pow10(|s|)
  {
    if s == [] then 0
    else DigitsValue(s[..|s| - 1]) * 10 + DigitValue(s[|s| - 1])
  }

  function Pow10(k: nat): (p: nat)
    ensures p >= 1
  {
    if k == 0 then 1 else 10 * Pow10(k - 1)
  }

  /** The position of the first '.', if any. */
  function FindDot(s: string): (r: Option<nat>)
    ensures r.None? <==> forall i :: 0 <= i < |s| ==> s[i] != '.'
    ensures r.Some? ==> r.value < |s| && s[r.value] == '.'
                        && forall i :: 0 <= i < r.value ==> s[i] != '.'
  {
    if s == [] then None
    else if s[0] == '.' then Some(0)
    else match FindDot(s[1..])
      case None => None
      case Some(k) => Some(k + 1)
  }

  /** An unsigned numeral: digits, optionally a point and more digits, at least one digit. */
  function ParseUnsigned(s: string): (r: Option<real>)
    ensures r.Some? ==> s != [] && r.value >= 0.0
    ensures r.Some? ==> forall i :: 0 <= i < |s| ==> IsDigit(s[i]) || s[i] == '.'
  {
    match FindDot(s)
    case None =>
      if s != [] && AllDigits(s) then Some(DigitsValue(s) as real) else None
    case Some(k) =>
      var whole, frac := s[..k], s[k + 1..];
      if AllDigits(whole) && AllDigits(frac) && |whole| + |frac| > 0 then
        assert forall i :: 0 <= i < |s| ==> i < k || i == k || s[i] == frac[i - k - 1];
        var w, f, d := DigitsValue(whole) as real, DigitsValue(frac) as real, Pow10(|frac|) as real;
        assert d >= 1.0 && f >= 0.0 && f / d >= 0.0;
        Some(w + f / d)
      else None
  }

  /** The numeric parse of one cell: Some(value) exactly when the text is a numeral. */
  function ParseNumber(s: string): (r: Option<real>)
    ensures r.Some? ==> s != [] && forall i :: 0 <= i < |s| ==> IsNumeralChar(s[i])
    ensures r.Some? && s[0] == '-' ==> r.value <= 0.0
    ensures r.Some? && s[0] != '-' ==> r.value >= 0.0
  {
    if s != [] && (s[0] == '-' || s[0] == '+') then
      match ParseUnsigned(s[1..])
      case None => None
      case Some(v) => Some(if s[0] == '-' then -v else v)
    else ParseUnsigned(s)
  }

  /** Decimal digits of a natural number, most significant first, no leading zeros. */
  function ShowNat(n: nat): (s: string)
    ensures s != [] && AllDigits(s)
  {
    if n < 10 then [DigitChar(n)] else ShowNat(n / 10) + [DigitChar(n % 10)]
  }

  function DigitChar(d: nat): (c: char)
    requires d < 10
    ensures IsDigit(c) && DigitValue(c) == d
  {
    ('0' as int + d) as char
  }

  /** How an integer is written: "-" before the digits of a negative number. */
  function ShowInt(n: int): string {
    if n < 0 then "-" + ShowNat(-n) else ShowNat(n)
  }

  /** Reading the digits of n gives n back. */
  lemma {:induction false} DigitsOfShowNat(n: nat)
    ensures DigitsValue(ShowNat(n)) == n
  {
    if n >= 10 {
      var s := ShowNat(n);
      DigitsOfShowNat(n / 10);
      assert s[..|s| - 1] == ShowNat(n / 10);
    }
  }

  /** A run of digits holds no decimal point. */
  lemma FindDotOfDigits(s: string)
    requires AllDigits(s)
    ensures FindDot(s).None?
  {
  }

  /** The digits of a natural number parse back to it. */
  lemma ParseShowNat(n: nat)
    ensures ParseUnsigned(ShowNat(n)) == Some(n as real)
  {
    DigitsOfShowNat(n);
    FindDotOfDigits(ShowNat(n));
  }

  /** Every integer written out in decimal parses back to itself. */
  lemma ParseShowInt(n: int)
    ensures ParseNumber(ShowInt(n)) == Some(n as real)
  {
    if n < 0 {
      ParseShowNegative(-n);
      assert ShowInt(n) == "-" + ShowNat(-n);
      assert -((-n) as real) == n as real;
    } else {
      ParseShowNonNegative(n);
    }
  }

  /** Digits without a sign are read as a non-negative number. */
  lemma ParseShowNonNegative(n: nat)
    ensures ParseNumber(ShowNat(n)) == Some(n as real)
  {
    var s := ShowNat(n);
    ParseShowNat(n);
    assert IsDigit(s[0]);
  }

  /** A minus sign before the digits negates their value. */
  lemma ParseShowNegative(m: nat)
    ensures ParseNumber("-" + ShowNat(m)) == Some(-(m as real))
  {
    var s := "-" + ShowNat(m);
    ParseShowNat(m);
    assert s[0] == '-' && s[1..] == ShowNat(m);
  }

  /** The numeral grammar stated on its own: digits and points only, at most one point, some digit. */
  predicate IsUnsignedNumeral(b: string) {
    && (forall i :: 0 <= i < |b| ==> IsDigit(b[i]) || b[i] == '.')
    && (forall i, j :: 0 <= i < j < |b| && b[i] == '.' ==> b[j] != '.')
    && (exists i :: 0 <= i < |b| && IsDigit(b[i]))
  }

  /** A numeral is an unsigned numeral, possibly after one leading sign. */
  predicate IsNumeral(s: string) {
    if s != [] && (s[0] == '-' || s[0] == '+') then IsUnsignedNumeral(s[1..])
    else IsUnsignedNumeral(s)
  }

  /** The unsigned parse accepts exactly the unsigned numerals. */
  lemma ParseUnsignedAccepts(b: string)
    ensures ParseUnsigned(b).Some? <==> IsUnsignedNumeral(b)
  {
    if IsUnsignedNumeral(b) {
      UnsignedNumeralParses(b);
    }
    if ParseUnsigned(b).Some? {
      ParsedIsUnsignedNumeral(b);
    }
  }

  /** Every unsigned numeral parses. */
  lemma UnsignedNumeralParses(b: string)
    requires IsUnsignedNumeral(b)
    ensures ParseUnsigned(b).Some?
  {
    match FindDot(b)
    case None =>
      assert AllDigits(b);
    case Some(k) =>
      var whole, frac := b[..k], b[k + 1..];
      assert AllDigits(whole);
      assert forall i :: 0 <= i < |frac| ==> b[k + 1 + i] == frac[i] && k < k + 1 + i;
      assert AllDigits(frac);
      var d :| 0 <= d < |b| && IsDigit(b[d]);
      assert d < k ==> |whole| > 0;
      assert d > k ==> |frac| > 0;
  }

  /** Whatever parses is an unsigned numeral. */
  lemma ParsedIsUnsignedNumeral(b: string)
    requires ParseUnsigned(b).Some?
    ensures IsUnsignedNumeral(b)
  {
    match FindDot(b)
    case None =>
      assert IsDigit(b[0]);
    case Some(k) =>
      var whole, frac := b[..k], b[k + 1..];
      assert b == whole + ['.'] + frac;
      assert forall i :: 0 <= i < |frac| ==> b[k + 1 + i] == frac[i];
      if |whole| > 0 {
        assert IsDigit(b[0]);
      } else {
        assert IsDigit(b[k + 1]);
      }
  }

  /** `ParseNumber` accepts exactly the numerals of the grammar. */
  lemma ParseNumberAccepts(s: string)
    ensures ParseNumber(s).Some? <==> IsNumeral(s)
  {
    if s != [] && (s[0] == '-' || s[0] == '+') {
      ParseUnsignedAccepts(s[1..]);
    } else {
      ParseUnsignedAccepts(s);
    }
  }

  /** A text containing a currency sign or a thousands separator is never a numeral. */
  lemma SymbolBlocksParse(s: string, i: nat)
    requires i < |s| && (s[i] == '$' || s[i] == ',')
    ensures ParseNumber(s).None?
  {
  }
}
