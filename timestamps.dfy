/**
 * The textual forms of a date-time that the two front ends put into request
 * paths: Python's strftime("%Y-%m-%dT%H:%M") and JavaScript's
 * Date.prototype.toISOString, both over the fields of a Calendar.DateTime
 * taken as UTC. A parser for the minute-precision form shows that the text
 * carries exactly the year-to-minute fields.
 */
module Timestamps {
  import opened Wrappers
  import opened Calendar

  function Pow10(n: nat): (p: nat)
    ensures p >= 1
  {
    if n == 0 then 1 else 10 * Pow10(n - 1)
  }

  predicate IsDigit(c: char)
  {
    '0' <= c <= '9'
  }

  predicate AllDigits(s: string)
  {
    forall i | 0 <= i < |s| :: IsDigit(s[i])
  }

  function DigitChar(d: int): (c: char)
    requires 0 <= d < 10
    ensures IsDigit(c)
  {
    (('0' as int) + d) as char
  }

  /** The decimal digits of n, zero-padded on the left to `width` characters. */
  function Pad(n: nat, width: nat): (s: string)
    requires n < Pow10(width)
    ensures |s| == width && AllDigits(s)
  {
    if width == 0 then "" else Pad(n / 10, width - 1) + [DigitChar(n % 10)]
  }

  /** The number a string of decimal digits denotes. */
  function DigitsValue(s: string): nat
    requires AllDigits(s)
  {
    if s == [] then 0 else 10 * DigitsValue(s[..|s| - 1]) + ((s[|s| - 1] as int) - ('0' as int))
  }

  /** Reading back a padded number gives the number. */
  lemma {:induction false} DigitsValuePad(n: nat, width: nat)
    requires n < Pow10(width)
    ensures DigitsValue(Pad(n, width)) == n
  {
    if width > 0 {
      var s := Pad(n, width);
      assert s[..|s| - 1] == Pad(n / 10, width - 1);
      DigitsValuePad(n / 10, width - 1);
    }
  }

  /** `YYYY-MM-DDTHH:MM`, what strftime("%Y-%m-%dT%H:%M") prints. */
  function MinuteStamp(dt: DateTime): (s: string)
    requires Valid(dt)
    ensures |s| == 16
  {
    Pad(dt.year, 4) + "-" + Pad(dt.month, 2) + "-" + Pad(dt.day, 2) + "T"
      + Pad(dt.hour, 2) + ":" + Pad(dt.minute, 2)
  }

  /** `YYYY-MM-DDTHH:MM:SS.sssZ`, what toISOString prints for a year in 1..9999. */
  function IsoString(dt: DateTime): (s: string)
    requires Valid(dt) && dt.subsecond < 1000
    ensures |s| == 24
  {
    MinuteStamp(dt) + ":" + Pad(dt.second, 2) + "." + Pad(dt.subsecond, 3) + "Z"
  }

  /** The year, month, day, hour and minute a stamp names. */
  datatype MinuteFields = MinuteFields(year: int, month: int, day: int, hour: int, minute: int)

  function FieldsOf(dt: DateTime): MinuteFields
  {
    MinuteFields(dt.year, dt.month, dt.day, dt.hour, dt.minute)
  }

  /** Reads `YYYY-MM-DDTHH:MM`; None for any other shape. */
  function ParseMinuteStamp(s: string): (r: Option<MinuteFields>)
    ensures r.Some? ==> |s| == 16
  {
    if |s| == 16 && s[4] == '-' && s[7] == '-' && s[10] == 'T' && s[13] == ':'
       && AllDigits(s[0..4]) && AllDigits(s[5..7]) && AllDigits(s[8..10])
       && AllDigits(s[11..13]) && AllDigits(s[14..16])
    then Some(MinuteFields(DigitsValue(s[0..4]), DigitsValue(s[5..7]), DigitsValue(s[8..10]),
                           DigitsValue(s[11..13]), DigitsValue(s[14..16])))
    else None
  }

  /** The minute stamp of a date-time reads back as its year-to-minute fields. */
  lemma MinuteStampRoundTrip(dt: DateTime)
    requires Valid(dt)
    ensures ParseMinuteStamp(MinuteStamp(dt)) == Some(FieldsOf(dt))
  {
    var s := MinuteStamp(dt);
    assert s[0..4] == Pad(dt.year, 4);
    assert s[5..7] == Pad(dt.month, 2);
    assert s[8..10] == Pad(dt.day, 2);
    assert s[11..13] == Pad(dt.hour, 2);
    assert s[14..16] == Pad(dt.minute, 2);
    DigitsValuePad(dt.year, 4);
    DigitsValuePad(dt.month, 2);
    DigitsValuePad(dt.day, 2);
    DigitsValuePad(dt.hour, 2);
    DigitsValuePad(dt.minute, 2);
  }

  /** Two date-times print the same minute stamp exactly when they agree from year to minute. */
  lemma MinuteStampInjective(a: DateTime, b: DateTime)
    requires Valid(a) && Valid(b)
    ensures MinuteStamp(a) == MinuteStamp(b) <==> FieldsOf(a) == FieldsOf(b)
  {
    if MinuteStamp(a) == MinuteStamp(b) {
      MinuteStampRoundTrip(a);
      MinuteStampRoundTrip(b);
    }
  }
}
