/**
 * Character-level helpers shared by the parsers: Python's `str.strip()` with
 * no argument, ASCII digits and their decimal value, and the decimal text of
 * a natural number.
 */
module Text {

  /** The code points Python's `str.isspace` accepts; `str.strip()` removes exactly these. */
  predicate IsSpace(c: char) {
    var n := c as int;
    n == 0x20 || 0x09 <= n <= 0x0d || 0x1c <= n <= 0x1f || n == 0x85 || n == 0xa0 ||
    n == 0x1680 || 0x2000 <= n <= 0x200a || n == 0x2028 || n == 0x2029 ||
    n == 0x202f || n == 0x205f || n == 0x3000
  }

  predicate AllSpace(s: string) {
    forall i :: 0 <= i < |s| ==> IsSpace(s[i])
  }

  /** Where `strip()` starts its result: the index of the first non-whitespace character, or `|s|`. */
  function StripStart(s: string): (lo: nat)
    ensures lo <= |s|
    ensures forall i :: 0 <= i < lo ==> IsSpace(s[i])
    ensures lo < |s| ==> !IsSpace(s[lo])
  {
    if s == [] || !IsSpace(s[0]) then 0 else 1 + StripStart(s[1..])
  }

  /** Where `strip()` ends its result: one past the last non-whitespace character at or after `lo`, or `lo`. */
  function StripEnd(s: string, lo: nat): (hi: nat)
    requires lo <= |s|
    ensures lo <= hi <= |s|
    ensures forall i :: hi <= i < |s| ==> IsSpace(s[i])
    ensures hi > lo ==> !IsSpace(s[hi - 1])
    decreases |s|
  {
    if |s| == lo || !IsSpace(s[|s| - 1]) then |s| else StripEnd(s[..|s| - 1], lo)
  }

  /** `s.strip()`: `s` without its leading and trailing whitespace. */
  function Strip(s: string): string {
    var lo := StripStart(s);
    s[lo..StripEnd(s, lo)]
  }

  /**
   * `Strip(s)` is `s` with whitespace cut off at both ends and nothing else:
   * `s` is some whitespace, then the result, then more whitespace, and a
   * non-empty result neither starts nor ends with whitespace.
   */
  lemma StripIsTrimmedSlice(s: string)
    ensures StripStart(s) + |Strip(s)| <= |s|
    ensures s == s[..StripStart(s)] + Strip(s) + s[StripStart(s) + |Strip(s)|..]
    ensures AllSpace(s[..StripStart(s)]) && AllSpace(s[StripStart(s) + |Strip(s)|..])
    ensures Strip(s) != [] ==> !IsSpace(Strip(s)[0]) && !IsSpace(Strip(s)[|Strip(s)| - 1])
  {
    var lo := StripStart(s);
    var hi := StripEnd(s, lo);
    assert Strip(s) == s[lo..hi] && lo + |Strip(s)| == hi;
    assert AllSpace(s[..lo]) by {
      forall i | 0 <= i < lo ensures IsSpace(s[..lo][i]) {
        assert s[..lo][i] == s[i];
      }
    }
    assert AllSpace(s[hi..]) by {
      forall i | 0 <= i < |s| - hi ensures IsSpace(s[hi..][i]) {
        assert s[hi..][i] == s[hi + i];
      }
    }
    assert s == s[..lo] + s[lo..hi] + s[hi..];
    StripBoundary(s);
  }

  lemma StripBoundary(s: string)
    ensures Strip(s) != [] ==> !IsSpace(Strip(s)[0]) && !IsSpace(Strip(s)[|Strip(s)| - 1])
  {
    var lo := StripStart(s);
    var hi := StripEnd(s, lo);
    var r := Strip(s);
    if r != [] {
      assert r[0] == s[lo];
      assert r[|r| - 1] == s[hi - 1];
    }
  }

  /** The stripped text is empty exactly when the input is whitespace only. */
  lemma StripEmptyIff(s: string)
    ensures Strip(s) == [] <==> AllSpace(s)
  {
    var lo := StripStart(s);
    var hi := StripEnd(s, lo);
    if lo < |s| {
      assert !IsSpace(s[lo]);
      assert hi > lo;
    }
  }

  /** Stripping twice is stripping once. */
  lemma StripIdempotent(s: string)
    ensures Strip(Strip(s)) == Strip(s)
  {
    var r := Strip(s);
    var lo := StripStart(s);
    var hi := StripEnd(s, lo);
    assert r == s[lo..hi];
    if r != [] {
      assert r[0] == s[lo] && r[|r| - 1] == s[hi - 1];
      assert StripStart(r) == 0;
      assert StripEnd(r, 0) == |r|;
      assert r[0..|r|] == r;
    }
  }

  predicate IsDigit(c: char) {
    '0' <= c <= '9'
  }

  predicate AllDigits(s: string) {
    forall i :: 0 <= i < |s| ==> IsDigit(s[i])
  }

  function DigitValue(c: char): nat
    requires IsDigit(c)
  {
    c as int - '0' as int
  }

  function Pow10(k: nat): (p: nat)
    ensures p >= 1
  {
    if k == 0 then 1 else 10 * Pow10(k - 1)
  }

  /** The value of a string of decimal digits, most significant first (`int(s)`; `0` for the empty string). */
  function DigitsValue(s: string): nat
    requires AllDigits(s)
  {
    if s == [] then 0 else DigitsValue(s[..|s| - 1]) * 10 + DigitValue(s[|s| - 1])
  }

  /** Appending digits shifts the value of the prefix left by their count. */
  lemma {:induction false} DigitsValueAppend(a: string, b: string)
    requires AllDigits(a) && AllDigits(b)
    ensures AllDigits(a + b)
    ensures DigitsValue(a + b) == DigitsValue(a) * Pow10(|b|) + DigitsValue(b)
    decreases |b|
  {
    if b == [] {
      assert a + b == a;
    } else {
      var b', d := b[..|b| - 1], DigitValue(b[|b| - 1]);
      assert (a + b)[..|a + b| - 1] == a + b';
      assert (a + b)[|a + b| - 1] == b[|b| - 1];
      DigitsValueAppend(a, b');
      var x, y, p := DigitsValue(a), DigitsValue(b'), Pow10(|b'|);
      assert DigitsValue(a + b) == DigitsValue(a + b') * 10 + d;
      assert DigitsValue(b) == y * 10 + d;
      assert Pow10(|b|) == p * 10;
      ShiftDigit(x, p, y, d);
    }
  }

  lemma ShiftDigit(x: int, p: int, y: int, d: int)
    ensures (x * p + y) * 10 + d == x * (p * 10) + (y * 10 + d)
  {
  }

  /** A digit string of length k is worth less than 10^k. */
  lemma {:induction false} DigitsValueBound(s: string)
    requires AllDigits(s)
    ensures DigitsValue(s) < Pow10(|s|)
  {
    if s != [] {
      DigitsValueBound(s[..|s| - 1]);
    }
  }

  function Digit(n: nat): (c: char)
    requires n < 10
    ensures IsDigit(c) && DigitValue(c) == n
  {
    ('0' as int + n) as char
  }

  /** `str(n)` for a natural number: its shortest decimal text. */
  function NatText(n: nat): (r: string)
    ensures r != [] && AllDigits(r)
  {
    if n < 10 then [Digit(n)] else NatText(n / 10) + [Digit(n % 10)]
  }

  /** Reading back the decimal text of `n` gives `n`. */
  lemma {:induction false} NatTextRoundTrip(n: nat)
    ensures DigitsValue(NatText(n)) == n
  {
    if n >= 10 {
      NatTextRoundTrip(n / 10);
      var t := NatText(n);
      assert t[..|t| - 1] == NatText(n / 10);
    }
  }

  /** A number below 10^k (k at least 1) has at most k decimal digits. */
  lemma {:induction false} NatTextLength(n: nat, k: nat)
    requires 1 <= k && n < Pow10(k)
    ensures |NatText(n)| <= k
  {
    if n >= 10 {
      assert k >= 2;
      assert n / 10 < Pow10(k - 1);
      NatTextLength(n / 10, k - 1);
    }
  }

  /** `n` written with at least `width` digits, zero-padded on the left (`'%0*d' % (width, n)`). */
  function ZeroPadded(n: nat, width: nat): (r: string)
    ensures AllDigits(r) && |r| >= width
  {
    var t := NatText(n);
    if |t| < width then Zeros(width - |t|) + t else t
  }

  function Zeros(k: nat): (r: string)
    ensures |r| == k && AllDigits(r)
  {
    if k == 0 then [] else Zeros(k - 1) + ['0']
  }

  lemma {:induction false} ZerosValue(k: nat)
    ensures DigitsValue(Zeros(k)) == 0
  {
    if k > 0 {
      assert Zeros(k)[..k - 1] == Zeros(k - 1);
      ZerosValue(k - 1);
    }
  }

  /** Zero-padding does not change the value read back. */
  lemma ZeroPaddedRoundTrip(n: nat, width: nat)
    ensures DigitsValue(ZeroPadded(n, width)) == n
  {
    var t := NatText(n);
    NatTextRoundTrip(n);
    if |t| < width {
      var z := Zeros(width - |t|);
      DigitsValueAppend(z, t);
      ZerosValue(width - |t|);
      assert DigitsValue(z) * Pow10(|t|) == 0;
    }
  }

  /** Position of the first `c` in `s`, or `|s|` when there is none (`str.find`, with `|s|` for `-1`). */
  function IndexOf(s: string, c: char): (k: nat)
    ensures k <= |s|
    ensures k < |s| ==> s[k] == c
    ensures forall i :: 0 <= i < k ==> s[i] != c
  {
    if s == [] then 0 else if s[0] == c then 0 else 1 + IndexOf(s[1..], c)
  }
}
