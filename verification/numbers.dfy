/** Decimal text and numbers: the parts of Python's `int(s)`, `float(s)`
    and `str(n)` the monitors use on fields of `ps` output. */
module Numbers {
  import opened Wrappers

  predicate IsDigit(c: char)
  {
    '0' <= c <= '9'
  }

  predicate AllDigits(s: string)
  {
    forall i :: 0 <= i < |s| ==> IsDigit(s[i])
  }

  function DigitValue(c: char): nat
    requires IsDigit(c)
  {
    c as int - '0' as int
  }

  function DigitChar(d: nat): (c: char)
    requires d < 10
    ensures IsDigit(c) && DigitValue(c) == d
  {
    ('0' as int + d) as char
  }

  /** The value of a string of decimal digits, most significant first. */
  function DigitsValue(s: string): nat
    requires AllDigits(s)
  {
    if |s| == 0 then 0
    else DigitsValue(s[..|s| - 1]) * 10 + DigitValue(s[|s| - 1])
  }

  /** A sign character Python's numeric constructors accept. */
  predicate IsSign(c: char)
  {
    c == '+' || c == '-'
  }

  /** The text Python's `int()` accepts from a whitespace-free field:
      an optional sign followed by at least one decimal digit. */
  predicate IsIntLiteral(s: string)
  {
    if |s| > 0 && IsSign(s[0]) then |s| > 1 && AllDigits(s[1..])
    else |s| > 0 && AllDigits(s)
  }

  /** Python's `int(s)`; `None` stands for the `ValueError` it raises. */
  function ParseInt(s: string): (r: Option<int>)
    ensures r.Some? <==> IsIntLiteral(s)
    ensures r.Some? && AllDigits(s) ==> r.value == DigitsValue(s)
    ensures r.Some? && |s| > 0 && s[0] == '-' ==> r.value <= 0
  {
    if |s| > 0 && IsSign(s[0]) then
      if |s| > 1 && AllDigits(s[1..]) then
        var n: int := DigitsValue(s[1..]);
        Some(if s[0] == '-' then -n else n)
      else None
    else if |s| > 0 && AllDigits(s) then Some(DigitsValue(s))
    else None
  }

  /** The decimal text of a natural number, without leading zeros. */
  function NatToString(n: nat): (s: string)
    ensures |s| > 0 && AllDigits(s)
    ensures |s| > 1 ==> s[0] != '0'
  {
    if n < 10 then [DigitChar(n)]
    else NatToString(n / 10) + [DigitChar(n % 10)]
  }

  /** Python's `str(n)` for an integer. */
  function IntToString(n: int): (s: string)
    ensures IsIntLiteral(s)
  {
    if n < 0 then "-" + NatToString(-n) else NatToString(n)
  }

  /** Reading back the digits of `n` gives `n`. */
  lemma {:induction false} NatToStringValue(n: nat)
    ensures DigitsValue(NatToString(n)) == n
  {
    var s := NatToString(n);
    if n >= 10 {
      NatToStringValue(n / 10);
      assert s[..|s| - 1] == NatToString(n / 10);
    }
  }

  /** `int(str(n)) == n`. */
  lemma IntToStringRoundTrip(n: int)
    ensures ParseInt(IntToString(n)) == Some(n)
  {
    if n < 0 {
      NatToStringValue(-n);
      assert IntToString(n)[1..] == NatToString(-n);
    } else {
      NatToStringValue(n);
    }
  }

  // ---------------------------------------------------------------------
  // float()
  // ---------------------------------------------------------------------

  function Pow10(k: nat): (p: nat)
    ensures p >= 1
  {
    if k == 0 then 1 else 10 * Pow10(k - 1)
  }

  /** A plain decimal numeral: digits, optionally a point and more digits,
      with at least one digit somewhere. */
  predicate IsDecimalBody(s: string)
  {
    && (forall i :: 0 <= i < |s| ==> IsDigit(s[i]) || s[i] == '.')
    && (exists i :: 0 <= i < |s| && IsDigit(s[i]))
    && (forall i, j :: 0 <= i < j < |s| && s[i] == '.' ==> s[j] != '.')
  }

  /** Where the point is, or `|s|` when there is none. */
  function PointIndex(s: string): (p: nat)
    ensures p <= |s|
    ensures p < |s| ==> s[p] == '.'
    ensures forall i :: 0 <= i < p ==> s[i] != '.'
  {
    if |s| == 0 then 0
    else if s[0] == '.' then 0
    else 1 + PointIndex(s[1..])
  }

  /** The digits before the point and the digits after it. */
  function WholeDigits(s: string): string
  {
    s[..PointIndex(s)]
  }

  function FracDigits(s: string): string
  {
    var p := PointIndex(s);
    if p < |s| then s[p + 1..] else []
  }

  /** Both sides of the point of a plain decimal numeral are digits. */
  lemma DecimalBodyParts(s: string)
    requires IsDecimalBody(s)
    ensures AllDigits(WholeDigits(s)) && AllDigits(FracDigits(s))
  {
    var p := PointIndex(s);
    assert AllDigits(FracDigits(s)) by {
      var frac := FracDigits(s);
      forall i | 0 <= i < |frac| ensures IsDigit(frac[i]) {
        assert frac[i] == s[p + 1 + i];
      }
    }
  }

  /** Whole digits plus fractional digits scaled down by ten per digit. */
  function PartsValue(whole: string, frac: string): (v: real)
    requires AllDigits(whole) && AllDigits(frac)
    ensures v >= DigitsValue(whole) as real
  {
    DigitsValue(whole) as real + DigitsValue(frac) as real / Pow10(|frac|) as real
  }

  /** The value of a plain decimal numeral. */
  function DecimalBodyValue(s: string): (v: real)
    requires IsDecimalBody(s)
    ensures v >= 0.0
  {
    DecimalBodyParts(s);
    PartsValue(WholeDigits(s), FracDigits(s))
  }

  /** The text `float()` accepts here: an optional sign and a plain decimal numeral. */
  predicate IsFloatLiteral(s: string)
  {
    if |s| > 0 && IsSign(s[0]) then IsDecimalBody(s[1..]) else IsDecimalBody(s)
  }

  /** Python's `float(s)` on the numerals `ps` prints: an optional sign and
      a plain decimal numeral; `None` stands for the `ValueError` it raises. */
  function ParseDecimal(s: string): (r: Option<real>)
    ensures r.Some? <==> IsFloatLiteral(s)
    ensures r.Some? && |s| > 0 && s[0] == '-' ==> r.value <= 0.0
    ensures r.Some? && !(|s| > 0 && s[0] == '-') ==> r.value >= 0.0
  {
    if |s| > 0 && IsSign(s[0]) then
      if IsDecimalBody(s[1..]) then
        var v := DecimalBodyValue(s[1..]);
        Some(if s[0] == '-' then -v else v)
      else None
    else if IsDecimalBody(s) then Some(DecimalBodyValue(s))
    else None
  }

  /** Without a point the whole numeral is the integer part. */
  lemma {:induction false} PointIndexNoPoint(s: string)
    requires AllDigits(s)
    ensures PointIndex(s) == |s|
  {
    if |s| > 0 {
      assert IsDigit(s[0]);
      assert AllDigits(s[1..]) by {
        forall i | 0 <= i < |s| - 1 ensures IsDigit(s[1..][i]) {
          assert s[1..][i] == s[i + 1];
        }
      }
      PointIndexNoPoint(s[1..]);
    }
  }

  lemma DigitsAreDecimalBody(s: string)
    requires |s| > 0 && AllDigits(s)
    ensures IsDecimalBody(s)
  {
    assert IsDigit(s[0]);
  }

  lemma {:induction false} DigitsBodyValue(s: string)
    requires |s| > 0 && AllDigits(s)
    ensures IsDecimalBody(s) && DecimalBodyValue(s) == DigitsValue(s) as real
  {
    DigitsAreDecimalBody(s);
    PointIndexNoPoint(s);
    assert s[..|s|] == s;
  }

  /** A numeral without a point reads as the integer `int()` reads. */
  lemma ParseDecimalOfInteger(s: string)
    requires |s| > 0 && AllDigits(s)
    ensures ParseDecimal(s) == Some(DigitsValue(s) as real)
  {
    assert IsDigit(s[0]);
    DigitsBodyValue(s);
  }

  /** In digits followed by a point, the point comes right after the digits. */
  lemma {:induction false} PointIndexAfterDigits(w: string, t: string)
    requires AllDigits(w) && |t| > 0 && t[0] == '.'
    ensures PointIndex(w + t) == |w|
    decreases |w|
  {
    if |w| > 0 {
      assert IsDigit(w[0]);
      assert (w + t)[1..] == w[1..] + t;
      assert AllDigits(w[1..]) by {
        forall i | 0 <= i < |w| - 1 ensures IsDigit(w[1..][i]) {
          assert w[1..][i] == w[i + 1];
        }
      }
      PointIndexAfterDigits(w[1..], t);
    } else {
      assert w + t == t;
    }
  }

  /** Digits, a point and digits, with a digit on at least one side, form
      a plain decimal numeral that does not start with a sign. */
  lemma PointedIsDecimalBody(w: string, f: string)
    requires AllDigits(w) && AllDigits(f) && |w| + |f| > 0
    ensures IsDecimalBody(w + "." + f) && !IsSign((w + "." + f)[0])
  {
    var s := w + "." + f;
    assert forall i :: 0 <= i < |w| ==> s[i] == w[i];
    assert forall i :: |w| < i < |s| ==> s[i] == f[i - |w| - 1];
    assert s[|w|] == '.';
    if |w| > 0 { assert IsDigit(s[0]); } else { assert IsDigit(s[|w| + 1]); }
    forall k | 0 <= k < |s| && k != |w| ensures IsDigit(s[k]) {
      if k < |w| { assert IsDigit(w[k]); } else { assert IsDigit(f[k - |w| - 1]); }
    }
    assert IsDecimalBody(s);
  }

  /** The value of a numeral with a point: its whole digits plus its
      fractional digits scaled down by ten per digit. */
  lemma PointedValue(w: string, f: string)
    requires AllDigits(w) && AllDigits(f) && |w| + |f| > 0
    requires IsDecimalBody(w + "." + f)
    ensures DecimalBodyValue(w + "." + f) == PartsValue(w, f)
  {
    var s := w + "." + f;
    PointIndexAfterDigits(w, "." + f);
    assert w + ("." + f) == s;
    assert WholeDigits(s) == w;
    assert FracDigits(s) == f;
  }

  /** `float()` of digits, a point and digits; either side may be empty,
      not both. */
  lemma ParseDecimalOfFraction(w: string, f: string)
    requires AllDigits(w) && AllDigits(f) && |w| + |f| > 0
    ensures ParseDecimal(w + "." + f) == Some(PartsValue(w, f))
  {
    var s := w + "." + f;
    PointedIsDecimalBody(w, f);
    assert ParseDecimal(s) == Some(DecimalBodyValue(s));
    PointedValue(w, f);
  }

  /** A `ps` CPU share with one decimal, as in `85.3`, reads as that value. */
  lemma ParseOneDecimal(n: nat, d: nat)
    requires d < 10
    ensures ParseDecimal(NatToString(n) + "." + [DigitChar(d)]) == Some(n as real + d as real / 10.0)
  {
    var f := [DigitChar(d)];
    assert AllDigits(f);
    NatToStringValue(n);
    assert f[..0] == [];
    assert DigitsValue(f) == d;
    assert Pow10(1) == 10;
    assert PartsValue(NatToString(n), f) == n as real + d as real / 10.0;
    ParseDecimalOfFraction(NatToString(n), f);
  }
}
