/**
  The number syntax accepted for the value field: an optional sign, decimal
  digits and an optional fractional part, read as an exact rational value.
  Exponents, hexadecimal floats, "Inf" and "NaN" are not modelled.
 */
module Numbers {
  import opened Wrappers
  import opened Text

  predicate IsDigit(c: char) {
    '0' <= c <= '9'
  }

  predicate AllDigits(s: string) {
    forall i :: 0 <= i < |s| ==> IsDigit(s[i])
  }

  function DigitValue(c: char): (d: nat)
    requires IsDigit(c)
    ensures d < 10
  {
    c as int - '0' as int
  }

  function DigitChar(d: nat): (c: char)
    requires d < 10
    ensures IsDigit(c) && DigitValue(c) == d
  {
    ('0' as int + d) as char
  }

  /** The value of a digit string read in base ten, most significant digit first. */
  function DigitsValue(ds: string): nat
    requires AllDigits(ds)
  {
    if |ds| == 0 then 0
    else DigitsValue(ds[..|ds| - 1]) * 10 + DigitValue(ds[|ds| - 1])
  }

  function Pow10(n: nat): (p: nat)
    ensures p >= 1
  {
    if n == 0 then 1 else 10 * Pow10(n - 1)
  }

  /** The shortest base-ten digit string of `n`. */
  function NatToDigits(n: nat): (ds: string)
    ensures |ds| >= 1 && AllDigits(ds)
  {
    if n < 10 then [DigitChar(n)]
    else NatToDigits(n / 10) + [DigitChar(n % 10)]
  }

  /** Reading the digits of `n` gives back `n`. */
  lemma {:induction false} DigitsRoundTrip(n: nat)
    ensures DigitsValue(NatToDigits(n)) == n
  {
    var ds := NatToDigits(n);
    if n >= 10 {
      DigitsRoundTrip(n / 10);
      assert ds[..|ds| - 1] == NatToDigits(n / 10);
    } else {
      assert ds[..0] == [];
    }
  }

  predicate IsSign(c: char) {
    c == '+' || c == '-'
  }

  /** Digits and points, with at most one point and at least one digit. */
  predicate IsUnsignedDecimal(s: string) {
    && |s| > 0
    && s != "."
    && (forall i :: 0 <= i < |s| ==> IsDigit(s[i]) || s[i] == '.')
    && (forall i, j :: 0 <= i < j < |s| && s[i] == '.' ==> s[j] != '.')
  }

  /** The syntax of the value field: an optional leading sign, then an unsigned decimal. */
  predicate IsNumber(s: string) {
    if |s| > 0 && IsSign(s[0]) then IsUnsignedDecimal(s[1..]) else IsUnsignedDecimal(s)
  }

  /** The value of whole digits, a point and fractional digits. */
  function DecimalValue(whole: string, frac: string): real
    requires AllDigits(whole) && AllDigits(frac)
  {
    DigitsValue(whole) as real + DigitsValue(frac) as real / Pow10(|frac|) as real
  }

  /** A value under a sign written as `""`, `"+"` or `"-"`. */
  function Signed(sign: string, v: real): real {
    if sign == "-" then -v else v
  }

  /**
    An unsigned decimal: digits, optionally followed by a point and more
    digits, with at least one digit on some side of the point.
   */
  function ParseUnsigned(s: string): (r: Option<real>)
    ensures r.Some? ==> r.value >= 0.0
    ensures '.' !in s ==> (r.Some? <==> |s| > 0 && AllDigits(s))
    ensures '.' !in s && r.Some? ==> r.value == DigitsValue(s) as real
  {
    if '.' !in s then
      if |s| > 0 && AllDigits(s) then Some(DigitsValue(s) as real) else None
    else
      var k := IndexOf(s, '.');
      var whole := s[..k];
      var frac := s[k + 1..];
      if AllDigits(whole) && AllDigits(frac) && |whole| + |frac| > 0 then
        Some(DecimalValue(whole, frac))
      else None
  }

  /** The unsigned reader accepts exactly the unsigned decimals. */
  lemma UnsignedAccepts(s: string)
    ensures ParseUnsigned(s).Some? <==> IsUnsignedDecimal(s)
  {
    if '.' in s {
      var k := IndexOf(s, '.');
      var whole := s[..k];
      var frac := s[k + 1..];
      assert forall i :: 0 <= i < k ==> s[i] == whole[i];
      assert forall i :: k < i < |s| ==> s[i] == frac[i - k - 1];
      assert |s| == |whole| + |frac| + 1;
      assert |whole| + |frac| == 0 ==> s == ".";
      if IsUnsignedDecimal(s) {
        assert AllDigits(frac) by {
          forall i | 0 <= i < |frac| ensures IsDigit(frac[i]) {
            assert frac[i] == s[k + 1 + i];
          }
        }
      }
    } else {
      assert forall i :: 0 <= i < |s| ==> s[i] != '.';
    }
  }

  /**
    A decimal number with an optional leading sign. Fails on the empty
    string, on a lone sign or point, on a second point and on any character
    that is not a digit, a point or a leading sign.
   */
  function ParseNum(s: string): (r: Option<real>)
    ensures r.Some? <==> IsNumber(s)
    ensures r.Some? ==> |s| > 0
    ensures r.Some? ==> forall i :: 0 <= i < |s| ==> IsDigit(s[i]) || s[i] == '.' || (i == 0 && (s[i] == '+' || s[i] == '-'))
  {
    if |s| > 0 && IsSign(s[0]) then
      UnsignedAccepts(s[1..]);
      match ParseUnsigned(s[1..])
      case None => None
      case Some(v) => Some(if s[0] == '-' then -v else v)
    else
      UnsignedAccepts(s);
      ParseUnsigned(s)
  }

  /** A sign in front of an unsigned reading negates it under `-` and keeps it otherwise. */
  lemma ReadSigned(sign: string, body: string, v: real)
    requires sign == "" || sign == "+" || sign == "-"
    requires |body| > 0 && !IsSign(body[0])
    requires ParseUnsigned(body) == Some(v)
    ensures ParseNum(sign + body) == Some(Signed(sign, v))
  {
    if sign == "" {
      assert sign + body == body;
    } else {
      assert (sign + body)[1..] == body;
    }
  }

  /**
    Every signed decimal reads as its value: the whole digits, a point and
    the fractional digits, with at least one digit in all.
   */
  lemma ReadPointed(sign: string, whole: string, frac: string)
    requires sign == "" || sign == "+" || sign == "-"
    requires AllDigits(whole) && AllDigits(frac) && |whole| + |frac| > 0
    ensures ParseNum(sign + whole + "." + frac) == Some(Signed(sign, DecimalValue(whole, frac)))
  {
    var body := whole + "." + frac;
    ReadUnsignedPointed(whole, frac);
    ReadSigned(sign, body, DecimalValue(whole, frac));
    Regroup(sign, whole, ".", frac);
  }

  lemma Regroup(a: string, b: string, c: string, d: string)
    ensures a + b + c + d == a + (b + c + d)
  {
  }

  /** Whole digits, a point and fractional digits read as their value without a sign. */
  lemma ReadUnsignedPointed(whole: string, frac: string)
    requires AllDigits(whole) && AllDigits(frac) && |whole| + |frac| > 0
    ensures ParseUnsigned(whole + "." + frac) == Some(DecimalValue(whole, frac))
    ensures !IsSign((whole + "." + frac)[0])
  {
    var body := whole + "." + frac;
    PointAfterDigits(whole, frac);
    assert body[..|whole|] == whole;
    assert body[|whole| + 1..] == frac;
    if |whole| > 0 {
      assert body[0] == whole[0];
    }
  }

  /** Every signed digit string reads as its value. */
  lemma ReadWhole(sign: string, whole: string)
    requires sign == "" || sign == "+" || sign == "-"
    requires AllDigits(whole) && |whole| > 0
    ensures ParseNum(sign + whole) == Some(Signed(sign, DigitsValue(whole) as real))
  {
    assert '.' !in whole by {
      assert forall i :: 0 <= i < |whole| ==> whole[i] != '.';
    }
    ReadSigned(sign, whole, DigitsValue(whole) as real);
  }

  /**
    Writes a value given in tenths the way the input file writes it: an
    optional minus sign, the integer digits, a point and one decimal digit.
   */
  function FormatTenths(t: int): string {
    var a := if t < 0 then -t else t;
    (if t < 0 then "-" else "") + NatToDigits(a / 10) + "." + [DigitChar(a % 10)]
  }

  /** Every value written with one decimal digit reads back exactly. */
  lemma ParseFormatTenths(t: int)
    ensures ParseNum(FormatTenths(t)) == Some(t as real / 10.0)
  {
    var a := if t < 0 then -t else t;
    var sign := if t < 0 then "-" else "";
    ReadPointed(sign, NatToDigits(a / 10), [DigitChar(a % 10)]);
    TenthsValue(a);
  }

  /** Whole digits and one decimal digit of `a` tenths are worth `a` tenths. */
  lemma TenthsValue(a: nat)
    ensures DecimalValue(NatToDigits(a / 10), [DigitChar(a % 10)]) == a as real / 10.0
  {
    var frac := [DigitChar(a % 10)];
    DigitsRoundTrip(a / 10);
    assert DigitsValue(frac) == a % 10 by {
      assert frac[..0] == [];
    }
    assert a == (a / 10) * 10 + a % 10;
  }

  /** In digits followed by a point, the first point is the one after the digits. */
  lemma PointAfterDigits(ds: string, tail: string)
    requires AllDigits(ds)
    ensures IndexOf(ds + "." + tail, '.') == |ds|
  {
    var body := ds + "." + tail;
    assert body[|ds|] == '.';
    assert body[..|ds|] == ds;
    assert '.' !in ds;
  }
}
