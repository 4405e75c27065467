/** `parseInt(text, 10)` as section 19.2.5 of ECMA-262 defines it: skip
    leading white space and line terminators, take an optional sign, take the
    longest run of decimal digits; no digits at all gives NaN (None here).
    The result is an exact integer: every value the hours check accepts is
    exactly representable, and rounding a long digit run to a double never
    brings it into [1, 24]. */
module HoursInput {
  import opened Wrappers
  import opened Digits

  /** StrWhiteSpaceChar: WhiteSpace (section 12.2) or LineTerminator (section 12.3). */
  predicate IsStrWhiteSpace(c: char) {
    // TAB, VT, FF, ZWNBSP
    || c == '\t' || c == '\U{000B}' || c == '\U{000C}' || c == '\U{FEFF}'
    // the Zs (space separator) category
    || c == ' ' || c == '\U{00A0}' || c == '\U{1680}' || ('\U{2000}' <= c <= '\U{200A}')
    || c == '\U{202F}' || c == '\U{205F}' || c == '\U{3000}'
    // LF, CR, LS, PS
    || c == '\n' || c == '\r' || c == '\U{2028}' || c == '\U{2029}'
  }

  /** TrimString(s, start): drops the leading white space. */
  function TrimStart(s: string): (t: string)
    ensures |t| <= |s| && t == s[|s| - |t|..]
    ensures t == [] || !IsStrWhiteSpace(t[0])
    ensures forall i :: 0 <= i < |s| - |t| ==> IsStrWhiteSpace(s[i])
  {
    if s != [] && IsStrWhiteSpace(s[0]) then
      var t := TrimStart(s[1..]);
      assert s[1..][|s| - 1 - |t|..] == s[|s| - |t|..];
      assert forall i :: 1 <= i < |s| - |t| ==> s[i] == s[1..][i - 1];
      t
    else s
  }

  /** The longest prefix of `s` made of decimal digits. */
  function DigitPrefix(s: string): (z: string)
    ensures |z| <= |s| && z == s[..|z|]
    ensures forall i :: 0 <= i < |z| ==> IsDigit(z[i])
    ensures |z| == |s| || !IsDigit(s[|z|])
  {
    if s != [] && IsDigit(s[0]) then [s[0]] + DigitPrefix(s[1..]) else []
  }

  /** The text, once its blanks are gone, starts a number: a digit, or a sign
      followed by a digit. */
  predicate StartsNumber(t: string) {
    || (|t| > 0 && IsDigit(t[0]))
    || (|t| > 1 && (t[0] == '-' || t[0] == '+') && IsDigit(t[1]))
  }

  /** `parseInt(text, 10)`: a negative number only after a '-' (when a number
      is read at all is `ParseIntStarts`). */
  function ParseInt(text: string): (r: Option<int>)
    ensures r.Some? && r.value < 0 ==> |TrimStart(text)| > 0 && TrimStart(text)[0] == '-'
  {
    ParseTrimmedSome(TrimStart(text));
    ParseTrimmed(TrimStart(text))
  }

  /** `parseInt` reads a number exactly when, after the blanks and an
      optional sign, a digit follows; otherwise it gives NaN. */
  lemma ParseIntStarts(text: string)
    ensures ParseInt(text).Some? <==> StartsNumber(TrimStart(text))
  {
    ParseTrimmedSome(TrimStart(text));
  }

  /** Steps 4 to 16 of parseInt, after the leading white space is gone: a
      '-' negates, a '+' or '-' is dropped, then the digit run is read. */
  function ParseTrimmed(s: string): Option<int> {
    if s != [] && s[0] == '-' then
      match ParseDigits(s[1..])
      case Some(m) => Some(-m)
      case None => None
    else if s != [] && s[0] == '+' then ParseDigits(s[1..])
    else ParseDigits(s)
  }

  /** After the blanks, a number is read exactly when one starts there, and
      only a leading '-' makes it negative. */
  lemma ParseTrimmedSome(s: string)
    ensures ParseTrimmed(s).Some? <==> StartsNumber(s)
    ensures ParseTrimmed(s).Some? && ParseTrimmed(s).value < 0 ==> s[..1] == "-"
  {
    if s != [] && (s[0] == '-' || s[0] == '+') {
      ParseDigitsSome(s[1..]);
    } else {
      ParseDigitsSome(s);
    }
  }

  /** A digit run is read exactly when the text starts with a digit. */
  lemma ParseDigitsSome(s: string)
    ensures ParseDigits(s).Some? <==> |s| > 0 && IsDigit(s[0])
    ensures ParseDigits(s).Some? ==> ParseDigits(s).value >= 0
  {
  }

  /** The value of the longest digit prefix, or None (NaN) when there is none. */
  function ParseDigits(s: string): Option<int> {
    var z := DigitPrefix(s);
    if z == [] then None else Some(DigitsValue(z))
  }

  /** The shortest decimal numeral of `n`. */
  function Decimal(n: nat): (s: string)
    ensures s != [] && forall i :: 0 <= i < |s| ==> IsDigit(s[i])
  {
    if n < 10 then [DigitChar(n)] else Decimal(n / 10) + [DigitChar(n % 10)]
  }

  /** The numeral of an integer, with a leading '-' when it is negative. */
  function Signed(n: int): string {
    if n < 0 then "-" + Decimal(-n) else Decimal(n)
  }

  lemma {:induction false} DecimalValue(n: nat)
    ensures DigitsValue(Decimal(n)) == n
  {
    if n >= 10 {
      var s := Decimal(n);
      DecimalValue(n / 10);
      assert s[..|s| - 1] == Decimal(n / 10);
    }
  }

  /** A digit run followed by a non-digit (or by nothing) is the digit prefix. */
  lemma {:induction false} DigitPrefixOf(z: string, rest: string)
    requires forall i :: 0 <= i < |z| ==> IsDigit(z[i])
    requires rest == [] || !IsDigit(rest[0])
    ensures DigitPrefix(z + rest) == z
  {
    if z != [] {
      DigitPrefixOf(z[1..], rest);
      assert (z + rest)[1..] == z[1..] + rest;
    }
  }

  lemma {:induction false} TrimStartOf(ws: string, t: string)
    requires forall i :: 0 <= i < |ws| ==> IsStrWhiteSpace(ws[i])
    requires t == [] || !IsStrWhiteSpace(t[0])
    ensures TrimStart(ws + t) == t
  {
    if ws != [] {
      var s := ws + t;
      assert s[0] == ws[0] && IsStrWhiteSpace(s[0]);
      assert s[1..] == ws[1..] + t;
      TrimStartOf(ws[1..], t);
      assert TrimStart(s) == TrimStart(s[1..]);
    }
  }

  /** Any integer, written out with leading white space and followed by
      anything that does not continue its digits, parses back to itself. */
  lemma ParseSigned(ws: string, n: int, rest: string)
    requires forall i :: 0 <= i < |ws| ==> IsStrWhiteSpace(ws[i])
    requires rest == [] || !IsDigit(rest[0])
    ensures ParseInt(ws + Signed(n) + rest) == Some(n)
  {
    var u := Signed(n) + rest;
    assert ws + Signed(n) + rest == ws + u;
    SignedParses(n, rest);
    TrimStartOf(ws, u);
  }

  lemma SignedParses(n: int, rest: string)
    requires rest == [] || !IsDigit(rest[0])
    ensures Signed(n) + rest != [] && !IsStrWhiteSpace((Signed(n) + rest)[0])
    ensures ParseTrimmed(Signed(n) + rest) == Some(n)
  {
    if n < 0 {
      NegativeParses(n, rest);
    } else {
      NonNegativeParses(n, rest);
    }
  }

  /** A digit run followed by a tail that does not continue it reads as its value. */
  lemma ParseDigitsOf(z: string, rest: string)
    requires z != [] && forall i :: 0 <= i < |z| ==> IsDigit(z[i])
    requires rest == [] || !IsDigit(rest[0])
    ensures ParseDigits(z + rest) == Some(DigitsValue(z))
  {
    DigitPrefixOf(z, rest);
  }

  lemma DropFirst(c: char, v: string)
    ensures ([c] + v)[1..] == v
  {
  }

  /** A '-' followed by text whose digit run reads as `m` reads as `-m`. */
  lemma MinusStep(u: string, m: int)
    requires u != [] && u[0] == '-' && ParseDigits(u[1..]) == Some(m)
    ensures ParseTrimmed(u) == Some(-m)
  {
  }

  /** A '-', a digit run worth `m` and a tail that does not continue the
      run read as `-m`. */
  lemma MinusParses(z: string, m: int, rest: string)
    requires z != [] && forall i :: 0 <= i < |z| ==> IsDigit(z[i])
    requires DigitsValue(z) == m
    requires rest == [] || !IsDigit(rest[0])
    ensures ParseTrimmed("-" + z + rest) == Some(-m)
  {
    var v := z + rest;
    assert "-" + z + rest == "-" + v;
    DropFirst('-', v);
    ParseDigitsOf(z, rest);
    MinusStep("-" + v, m);
  }

  lemma NegativeParses(n: int, rest: string)
    requires n < 0
    requires rest == [] || !IsDigit(rest[0])
    ensures Signed(n) + rest != [] && (Signed(n) + rest)[0] == '-'
    ensures ParseTrimmed(Signed(n) + rest) == Some(n)
  {
    DecimalValue(-n);
    MinusParses(Decimal(-n), -n, rest);
  }

  lemma NonNegativeParses(n: int, rest: string)
    requires n >= 0
    requires rest == [] || !IsDigit(rest[0])
    ensures Signed(n) + rest != [] && IsDigit((Signed(n) + rest)[0])
    ensures ParseTrimmed(Signed(n) + rest) == Some(n)
  {
    var d := Decimal(n);
    DecimalValue(n);
    ParseDigitsOf(d, rest);
    assert (d + rest)[0] == d[0];
  }

  /** Text whose first non-blank character is neither a sign nor a digit,
      or whose sign is not followed by a digit, is NaN. */
  lemma ParseNaN(ws: string, t: string)
    requires forall i :: 0 <= i < |ws| ==> IsStrWhiteSpace(ws[i])
    requires t == [] || !IsStrWhiteSpace(t[0])
    requires t == [] || (!IsDigit(t[0]) && t[0] != '-' && t[0] != '+')
             || ((t[0] == '-' || t[0] == '+') && (|t| == 1 || !IsDigit(t[1])))
    ensures ParseInt(ws + t) == None
  {
    TrimStartOf(ws, t);
  }

  /** The Add Hours check (`!isNaN(h) && h >= 1 && h <= 24`): the hours the
      text stands for, or None when it is rejected. */
  function ParseHours(text: string): (r: Option<int>)
    ensures r.Some? ==> 1 <= r.value <= 24
  {
    match ParseInt(text)
    case Some(h) => if 1 <= h <= 24 then Some(h) else None
    case None => None
  }

  /** A number written with leading blanks and any non-digit tail is accepted
      exactly when it lies in [1, 24], and then stands for itself. */
  lemma HoursAccepted(ws: string, n: int, rest: string)
    requires forall i :: 0 <= i < |ws| ==> IsStrWhiteSpace(ws[i])
    requires rest == [] || !IsDigit(rest[0])
    ensures ParseHours(ws + Signed(n) + rest) == if 1 <= n <= 24 then Some(n) else None
  {
    ParseSigned(ws, n, rest);
  }

  /** Add Hours: a digit prefix followed by other text is accepted. */
  lemma AcceptsDigitPrefix()
    ensures ParseHours("8h") == Some(8)
  {
    assert Signed(8) == "8";
    assert "8h" == "" + Signed(8) + "h";
    HoursAccepted("", 8, "h");
  }

  /** Add Hours: leading white space is skipped. */
  lemma AcceptsLeadingBlank()
    ensures ParseHours(" 12") == Some(12)
  {
    assert Signed(12) == "12";
    assert " 12" == " " + Signed(12) + "";
    HoursAccepted(" ", 12, "");
  }

  /** Add Hours: the lower end of the range is accepted. */
  lemma AcceptsLowerBound()
    ensures ParseHours("1") == Some(1)
  {
    assert Signed(1) == "1";
    assert "1" == "" + Signed(1) + "";
    HoursAccepted("", 1, "");
  }

  /** Add Hours: the upper end of the range is accepted. */
  lemma AcceptsUpperBound()
    ensures ParseHours("24") == Some(24)
  {
    assert Signed(24) == "24";
    assert "24" == "" + Signed(24) + "";
    HoursAccepted("", 24, "");
  }

  /** Add Hours: empty input is NaN. */
  lemma RejectsEmpty()
    ensures ParseHours("") == None
  {
    ParseNaN("", "");
  }

  /** Add Hours: input without digits is NaN. */
  lemma RejectsLetters()
    ensures ParseHours("abc") == None
  {
    ParseNaN("", "abc");
    assert "abc" == "" + "abc";
  }

  /** Add Hours: zero is below the range. */
  lemma RejectsZero()
    ensures ParseHours("0") == None
  {
    assert Signed(0) == "0";
    assert "0" == "" + Signed(0) + "";
    HoursAccepted("", 0, "");
  }

  /** Add Hours: 25 is above the range. */
  lemma RejectsAboveRange()
    ensures ParseHours("25") == None
  {
    assert Signed(25) == "25";
    assert "25" == "" + Signed(25) + "";
    HoursAccepted("", 25, "");
  }

  /** Add Hours: a negative number is below the range. */
  lemma RejectsNegative()
    ensures ParseHours("-3") == None
  {
    assert Signed(-3) == "-3";
    assert "-3" == "" + Signed(-3) + "";
    HoursAccepted("", -3, "");
  }
}
