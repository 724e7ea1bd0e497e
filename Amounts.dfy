/**
 * The amount check of the record handlers: `float(amount)` on the stripped
 * amount text, for plain decimal notation (an optional sign, digits, an
 * optional decimal point with more digits, at least one digit in all).
 */
module Amounts {
  import opened Wrappers
  import opened Text

  /** The value of `whole.frac`, both digit strings. */
  function DecimalValue(whole: string, frac: string): real
    requires AllDigits(whole) && AllDigits(frac)
  {
    DigitsValue(whole) as real + DigitsValue(frac) as real / Pow10(|frac|) as real
  }

  /** Digits with at most one decimal point and at least one digit; `None` for anything else. */
  function UnsignedValue(s: string): Option<real> {
    var k := IndexOf(s, '.');
    var whole := s[..k];
    var frac := if k < |s| then s[k + 1..] else [];
    if AllDigits(whole) && AllDigits(frac) && |whole| + |frac| > 0 then
      Some(DecimalValue(whole, frac))
    else
      None
  }

  /** `float(s)`: `Some(value)` when the text is a decimal number, `None` where Python raises `ValueError`. */
  function ParseAmount(s: string): Option<real> {
    if |s| > 0 && (s[0] == '+' || s[0] == '-') then
      match UnsignedValue(s[1..])
      case None => None
      case Some(v) => Some(if s[0] == '-' then -v else v)
    else
      UnsignedValue(s)
  }

  predicate IsSign(c: char) {
    c == '+' || c == '-'
  }

  /** Unsigned text that parses is digits around at most one decimal point, with a digit somewhere. */
  lemma UnsignedShape(u: string)
    requires UnsignedValue(u).Some?
    ensures exists i :: 0 <= i < |u| && IsDigit(u[i])
    ensures forall i :: 0 <= i < |u| ==> IsDigit(u[i]) || u[i] == '.'
    ensures forall i, j :: 0 <= i < j < |u| && u[i] == '.' ==> u[j] != '.'
  {
    var k := IndexOf(u, '.');
    var whole := u[..k];
    var frac := if k < |u| then u[k + 1..] else [];
    assert AllDigits(whole) && AllDigits(frac) && |whole| + |frac| > 0;
    if |whole| > 0 {
      assert IsDigit(u[0]) by { assert u[0] == whole[0]; }
    } else {
      assert IsDigit(u[k + 1]) by { assert u[k + 1] == frac[0]; }
    }
    forall i | 0 <= i < |u|
      ensures IsDigit(u[i]) || u[i] == '.'
    {
      if i < k {
        assert u[i] == whole[i];
      } else if i > k {
        assert u[i] == frac[i - k - 1];
      }
    }
    forall i, j | 0 <= i < j < |u| && u[i] == '.'
      ensures u[j] != '.'
    {
      assert j > k;
      assert u[j] == frac[j - k - 1];
    }
  }

  /** Text that does not start with a sign is parsed as unsigned text. */
  lemma ParseAmountUnsigned(t: string)
    requires t == [] || !IsSign(t[0])
    ensures ParseAmount(t) == UnsignedValue(t)
  {
  }

  /**
   * Only decimal text is accepted: at least one digit, every other character a
   * single decimal point or a leading sign. Currency symbols, thousands
   * separators, letters and whitespace are all refused.
   */
  lemma ParseAmountShape(s: string)
    requires ParseAmount(s).Some?
    ensures exists i :: 0 <= i < |s| && IsDigit(s[i])
    ensures forall i :: 0 <= i < |s| ==> IsDigit(s[i]) || s[i] == '.' || (i == 0 && IsSign(s[i]))
    ensures forall i, j :: 0 <= i < j < |s| && s[i] == '.' ==> s[j] != '.'
  {
    if |s| > 0 && IsSign(s[0]) {
      var u := s[1..];
      assert UnsignedValue(u).Some?;
      UnsignedShape(u);
      var i :| 0 <= i < |u| && IsDigit(u[i]);
      assert IsDigit(s[i + 1]);
      assert forall i :: 1 <= i < |s| ==> s[i] == u[i - 1];
    } else {
      ParseAmountUnsigned(s);
      UnsignedShape(s);
    }
  }

  /** Digits `a`, a decimal point and digits `b` (a digit in all) read as `a + b / 10^|b|`. */
  lemma ParseAmountDecimal(a: string, b: string)
    requires AllDigits(a) && AllDigits(b) && |a| + |b| > 0
    ensures ParseAmount(a + "." + b) == Some(DecimalValue(a, b))
  {
    var s := a + "." + b;
    assert IndexOf(s, '.') == |a| by {
      assert s[|a|] == '.';
      assert forall i :: 0 <= i < |a| ==> s[i] == a[i];
    }
    assert s[..|a|] == a;
    assert s[|a| + 1..] == b;
    assert s[0] == if |a| > 0 then a[0] else '.';
    ParseAmountUnsigned(s);
  }

  /** Digits without a decimal point read as the whole number they spell. */
  lemma ParseAmountWhole(a: string)
    requires AllDigits(a) && |a| > 0
    ensures ParseAmount(a) == Some(DigitsValue(a) as real)
  {
    var k := IndexOf(a, '.');
    assert k == |a|;
    assert a[..k] == a;
    var none: string := [];
    assert DigitsValue(none) == 0 && Pow10(|none|) == 1;
    assert DecimalValue(a, none) == DigitsValue(a) as real;
    assert UnsignedValue(a) == Some(DigitsValue(a) as real);
    assert IsDigit(a[0]);
    ParseAmountUnsigned(a);
  }

  /** The decimal text of a natural number reads back as that number. */
  lemma ParseAmountNatText(n: nat)
    ensures ParseAmount(NatText(n)) == Some(n as real)
  {
    ParseAmountWhole(NatText(n));
    NatTextRoundTrip(n);
  }

  /** A leading `-` negates and a leading `+` keeps the value of unsigned text. */
  lemma ParseAmountSign(t: string)
    requires t == [] || !IsSign(t[0])
    ensures ParseAmount("-" + t) == (match ParseAmount(t) case None => None case Some(v) => Some(-v))
    ensures ParseAmount("+" + t) == ParseAmount(t)
  {
    ParseAmountUnsigned(t);
    var minus, plus := "-" + t, "+" + t;
    assert minus[0] == '-' && minus[1..] == t;
    assert plus[0] == '+' && plus[1..] == t;
    assert ParseAmount(minus) == (match UnsignedValue(t) case None => None case Some(v) => Some(-v));
    assert ParseAmount(plus) == UnsignedValue(t);
  }
}
