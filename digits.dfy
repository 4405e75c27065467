/** Decimal digit strings, shared by the day keys and by `parseInt`. */
module Digits {

  predicate IsDigit(c: char) {
    '0' <= c <= '9'
  }

  function DigitChar(n: int): (c: char)
    requires 0 <= n <= 9
    ensures IsDigit(c)
  {
    (48 + n) as char
  }

  function DigitValue(c: char): (n: int)
    requires IsDigit(c)
    ensures 0 <= n <= 9
  {
    c as int - 48
  }

  /** `n` in exactly `width` decimal digits, zero-padded on the left. */
  function Pad(n: nat, width: nat): (s: string)
    requires n < Pow10(width)
    ensures |s| == width
    ensures forall i :: 0 <= i < |s| ==> IsDigit(s[i])
    decreases width
  {
    if width == 0 then "" else Pad(n / 10, width - 1) + [DigitChar(n % 10)]
  }

  function Pow10(k: nat): (p: nat)
    ensures p >= 1
  {
    if k == 0 then 1 else 10 * Pow10(k - 1)
  }

  /** The value of a string of decimal digits, most significant first. */
  function DigitsValue(s: string): (n: nat)
    requires forall i :: 0 <= i < |s| ==> IsDigit(s[i])
    ensures n < Pow10(|s|)
  {
    if s == [] then 0 else DigitsValue(s[..|s| - 1]) * 10 + DigitValue(s[|s| - 1])
  }

  lemma {:induction false} PadRoundTrip(n: nat, width: nat)
    requires n < Pow10(width)
    ensures DigitsValue(Pad(n, width)) == n
    decreases width
  {
    if width > 0 {
      var s := Pad(n, width);
      PadRoundTrip(n / 10, width - 1);
      assert s[..|s| - 1] == Pad(n / 10, width - 1);
    }
  }

  lemma {:induction false} DigitsRoundTrip(s: string)
    requires forall i :: 0 <= i < |s| ==> IsDigit(s[i])
    ensures Pad(DigitsValue(s), |s|) == s
  {
    if s != [] {
      var init := s[..|s| - 1];
      DigitsRoundTrip(init);
      assert s == init + [s[|s| - 1]];
    }
  }
}
