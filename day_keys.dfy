/** Day keys: the ISO 8601 extended calendar-date form `YYYY-MM-DD`
    (section 4.1.2.2 of ISO 8601:2004), which is what
    `toISOString().split('T')[0]` yields for a UTC midnight in years
    0000..9999, and the parse `new Date(key)` performs on such a key. */
module DayKeys {
  import opened Wrappers
  import opened Calendar
  import opened Digits

  /** A date whose key has four year digits. */
  predicate Keyable(d: Date) {
    ValidDate(d) && 0 <= d.year <= 9999
  }

  /** The key of a day, as `toISOString().split('T')[0]` formats it. */
  function DayKey(d: Date): (k: string)
    requires Keyable(d)
    ensures |k| == 10 && k[4] == '-' && k[7] == '-'
  {
    Pad(d.year, 4) + "-" + Pad(d.month, 2) + "-" + Pad(d.day, 2)
  }

  predicate KeyShape(k: string) {
    && |k| == 10 && k[4] == '-' && k[7] == '-'
    && (forall i :: 0 <= i < 4 ==> IsDigit(k[i]))
    && (forall i :: 5 <= i < 7 ==> IsDigit(k[i]))
    && (forall i :: 8 <= i < 10 ==> IsDigit(k[i]))
  }

  /** `new Date(key)` followed by `getFullYear()`/`getMonth()`: the date a
      well-formed key names, or None (an Invalid Date, whose fields compare
      unequal to everything) for any other string. */
  function ParseKey(k: string): (r: Option<Date>)
    ensures r.Some? ==> Keyable(r.value)
  {
    if KeyShape(k) then
      var d := Date(DigitsValue(k[..4]), DigitsValue(k[5..7]), DigitsValue(k[8..]));
      if ValidDate(d) then Some(d) else None
    else None
  }

  /** Where the three fields of `a-b-c` sit in a ten-character key. */
  lemma KeyFields(a: string, b: string, c: string)
    requires |a| == 4 && |b| == 2 && |c| == 2
    ensures var k := a + "-" + b + "-" + c;
            |k| == 10 && k[4] == '-' && k[7] == '-' && k[..4] == a && k[5..7] == b && k[8..] == c
  {
  }

  /** Ten characters with dashes at 4 and 7 and digit fields have the key shape. */
  lemma FieldsShape(k: string)
    requires |k| == 10 && k[4] == '-' && k[7] == '-'
    requires forall i :: 0 <= i < 4 ==> IsDigit(k[..4][i])
    requires forall i :: 0 <= i < 2 ==> IsDigit(k[5..7][i])
    requires forall i :: 0 <= i < 2 ==> IsDigit(k[8..][i])
    ensures KeyShape(k)
  {
    assert forall i :: 0 <= i < 4 ==> k[i] == k[..4][i];
    assert forall i :: 5 <= i < 7 ==> k[i] == k[5..7][i - 5];
    assert forall i :: 8 <= i < 10 ==> k[i] == k[8..][i - 8];
  }

  /** Parsing a day's key gives the day back. */
  lemma ParseDayKey(d: Date)
    requires Keyable(d)
    ensures ParseKey(DayKey(d)) == Some(d)
  {
    var k := DayKey(d);
    KeyFields(Pad(d.year, 4), Pad(d.month, 2), Pad(d.day, 2));
    FieldsShape(k);
    PadRoundTrip(d.year, 4);
    PadRoundTrip(d.month, 2);
    PadRoundTrip(d.day, 2);
  }

  /** A key that parses is the canonical key of the day it names. */
  lemma DayKeyOfParse(k: string)
    requires ParseKey(k).Some?
    ensures DayKey(ParseKey(k).value) == k
  {
    var d := ParseKey(k).value;
    DigitsRoundTrip(k[..4]);
    DigitsRoundTrip(k[5..7]);
    DigitsRoundTrip(k[8..]);
    assert k == k[..4] + "-" + k[5..7] + "-" + k[8..];
  }

  /** Different days have different keys. */
  lemma DayKeyInjective(a: Date, b: Date)
    requires Keyable(a) && Keyable(b) && DayKey(a) == DayKey(b)
    ensures a == b
  {
    ParseDayKey(a);
    ParseDayKey(b);
  }
}
