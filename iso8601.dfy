/** The two text forms the handler writes with strftime: the calendar date
    "%Y-%m-%d" (YYYY-MM-DD) of the query window, and the ISO 8601 extended
    complete date-time "%Y-%m-%dT%H:%M:%S" (YYYY-MM-DDTHH:MM:SS, no fraction,
    no zone designator) of each quake record. Reading them back is the
    reference against which the rendering is proved. */
module Iso8601 {
  import opened Wrappers
  import opened Calendar

  function Digit(v: int): char
    requires 0 <= v <= 9
  {
    ('0' as int + v) as char
  }

  function DigitValue(c: char): Option<int> {
    if '0' <= c <= '9' then Some(c as int - '0' as int) else None
  }

  /** A number in 0..99 written with two digits, zero-padded. */
  function Pad2(v: int): string
    requires 0 <= v <= 99
  {
    [Digit(v / 10), Digit(v % 10)]
  }

  /** A number in 0..9999 written with four digits, zero-padded. */
  function Pad4(v: int): string
    requires 0 <= v <= 9999
  {
    var q1 := v / 10;
    var q2 := q1 / 10;
    [Digit(q2 / 10), Digit(q2 % 10), Digit(q1 % 10), Digit(v % 10)]
  }

  /** strftime("%Y-%m-%d") */
  function FormatDate(d: Date): string
    requires ValidDate(d)
  {
    Pad4(d.year) + "-" + Pad2(d.month) + "-" + Pad2(d.day)
  }

  /** strftime("%Y-%m-%dT%H:%M:%S") */
  function FormatDateTime(t: DateTime): string
    requires ValidDateTime(t)
  {
    FormatDate(t.date) + "T" + Pad2(t.hour) + ":" + Pad2(t.minute) + ":" + Pad2(t.second)
  }

  /** The UTC timestamp text of the whole second s since the epoch. */
  function RenderUtc(s: int): (r: string)
    requires MinInstant <= s <= MaxInstant
    ensures |r| == 19 && r[4] == '-' && r[7] == '-' && r[10] == 'T' && r[13] == ':' && r[16] == ':'
  {
    FormatDateTime(DateTimeOf(s))
  }

  /** A worked instance: 1700000000 seconds after the epoch is 22:13:20 UTC
      on 14 November 2023 (day 19675 of the epoch). */
  lemma RenderUtcExample()
    ensures RenderUtc(1700000000) == "2023-11-14T22:13:20"
  {
    var t := DateTime(Date(2023, 11, 14), 22, 13, 20);
    assert DayNumber(t.date) == 19675;
    assert InstantOf(t) == 1700000000;
    InstantOfInjective(DateTimeOf(1700000000), t);
  }

  // ---------------------------------------------------------------------
  // Reading the forms back

  /** The value of a run of decimal digits; None if any character is not one. */
  function ParseDigits(s: string): Option<int>
    decreases |s|
  {
    if s == [] then Some(0)
    else
      var high :- ParseDigits(s[..|s| - 1]);
      var low :- DigitValue(s[|s| - 1]);
      Some(10 * high + low)
  }

  function ParseDate(s: string): Option<Date> {
    if |s| != 10 || s[4] != '-' || s[7] != '-' then None
    else
      var y :- ParseDigits(s[..4]);
      var m :- ParseDigits(s[5..7]);
      var d :- ParseDigits(s[8..10]);
      Some(Date(y, m, d))
  }

  function ParseDateTime(s: string): Option<DateTime> {
    if |s| != 19 || s[10] != 'T' || s[13] != ':' || s[16] != ':' then None
    else
      var date :- ParseDate(s[..10]);
      var h :- ParseDigits(s[11..13]);
      var mi :- ParseDigits(s[14..16]);
      var sec :- ParseDigits(s[17..19]);
      Some(DateTime(date, h, mi, sec))
  }

  // ---------------------------------------------------------------------
  // Round trips

  lemma ParsePad2(v: int)
    requires 0 <= v <= 99
    ensures ParseDigits(Pad2(v)) == Some(v)
  {
    var s := Pad2(v);
    assert s[..1][..0] == [];
    assert ParseDigits(s[..1]) == Some(v / 10);
  }

  lemma ParsePad4(v: int)
    requires 0 <= v <= 9999
    ensures ParseDigits(Pad4(v)) == Some(v)
  {
    var s := Pad4(v);
    var q1 := v / 10;
    var q2 := q1 / 10;
    assert s[..1][..0] == [];
    assert s[..2][..1] == s[..1];
    assert s[..3][..2] == s[..2];
    assert s[..4] == s;
    assert ParseDigits(s[..1]) == Some(q2 / 10);
    assert ParseDigits(s[..2]) == Some(q2);
    assert ParseDigits(s[..3]) == Some(q1);
  }

  lemma DateRoundTrip(d: Date)
    requires ValidDate(d)
    ensures ParseDate(FormatDate(d)) == Some(d)
  {
    var s := FormatDate(d);
    assert s[..4] == Pad4(d.year);
    assert s[5..7] == Pad2(d.month);
    assert s[8..10] == Pad2(d.day);
    ParsePad4(d.year);
    ParsePad2(d.month);
    ParsePad2(d.day);
  }

  lemma DateTimeRoundTrip(t: DateTime)
    requires ValidDateTime(t)
    ensures ParseDateTime(FormatDateTime(t)) == Some(t)
  {
    var s := FormatDateTime(t);
    assert s[..10] == FormatDate(t.date);
    assert s[11..13] == Pad2(t.hour);
    assert s[14..16] == Pad2(t.minute);
    assert s[17..19] == Pad2(t.second);
    DateRoundTrip(t.date);
    ParsePad2(t.hour);
    ParsePad2(t.minute);
    ParsePad2(t.second);
  }

  /** The rendered text reads back as a valid civil date-time that denotes
      exactly the second s; by InstantOfInjective it is the only one. */
  lemma RenderUtcDenotesInstant(s: int)
    requires MinInstant <= s <= MaxInstant
    ensures ParseDateTime(RenderUtc(s)).Some?
    ensures ValidDateTime(ParseDateTime(RenderUtc(s)).value)
    ensures InstantOf(ParseDateTime(RenderUtc(s)).value) == s
  {
    DateTimeRoundTrip(DateTimeOf(s));
  }

  /** Rendering is one-to-one on the representable seconds. */
  lemma RenderUtcInjective(s1: int, s2: int)
    requires MinInstant <= s1 <= MaxInstant && MinInstant <= s2 <= MaxInstant
    ensures RenderUtc(s1) == RenderUtc(s2) ==> s1 == s2
  {
    RenderUtcDenotesInstant(s1);
    RenderUtcDenotesInstant(s2);
  }

  /** Only the canonical text reads back as a given date: whatever parses to
      a valid date d is FormatDate(d), character for character. */
  lemma ParseDateCanonical(text: string)
    requires ParseDate(text).Some? && ValidDate(ParseDate(text).value)
    ensures text == FormatDate(ParseDate(text).value)
  {
    var d := ParseDate(text).value;
    Digits2Canonical(text[5..7]);
    Digits2Canonical(text[8..10]);
    Digits4Canonical(text[..4]);
    assert text == text[..4] + "-" + text[5..7] + "-" + text[8..10];
  }

  lemma DigitCanonical(c: char)
    requires DigitValue(c).Some?
    ensures 0 <= DigitValue(c).value <= 9 && Digit(DigitValue(c).value) == c
  {
  }

  /** The last step of ParseDigits, unfolded once. */
  lemma ParseDigitsLast(s: string)
    requires s != [] && ParseDigits(s).Some?
    ensures ParseDigits(s[..|s| - 1]).Some? && DigitValue(s[|s| - 1]).Some?
    ensures ParseDigits(s).value == 10 * ParseDigits(s[..|s| - 1]).value + DigitValue(s[|s| - 1]).value
  {
  }

  lemma Digits2Canonical(s: string)
    requires |s| == 2 && ParseDigits(s).Some?
    ensures 0 <= ParseDigits(s).value <= 99 && s == Pad2(ParseDigits(s).value)
  {
    ParseDigitsLast(s);
    assert s[..1][..0] == [];
    ParseDigitsLast(s[..1]);
    var a, b := DigitValue(s[0]).value, DigitValue(s[1]).value;
    DigitCanonical(s[0]);
    DigitCanonical(s[1]);
    var v := 10 * a + b;
    assert ParseDigits(s).value == v;
    assert v / 10 == a && v % 10 == b;
  }

  lemma Digits4Canonical(s: string)
    requires |s| == 4 && ParseDigits(s).Some?
    ensures 0 <= ParseDigits(s).value <= 9999 && s == Pad4(ParseDigits(s).value)
  {
    assert s[..1][..0] == [];
    assert s[..2][..1] == s[..1];
    assert s[..3][..2] == s[..2];
    ParseDigitsLast(s);
    ParseDigitsLast(s[..3]);
    ParseDigitsLast(s[..2]);
    ParseDigitsLast(s[..1]);
    var a, b, c, d := DigitValue(s[0]).value, DigitValue(s[1]).value, DigitValue(s[2]).value, DigitValue(s[3]).value;
    DigitCanonical(s[0]);
    DigitCanonical(s[1]);
    DigitCanonical(s[2]);
    DigitCanonical(s[3]);
    var q2 := 10 * a + b;
    var q1 := 10 * q2 + c;
    var v := 10 * q1 + d;
    assert ParseDigits(s).value == v;
    assert v / 10 == q1 && v % 10 == d;
    assert q1 / 10 == q2 && q1 % 10 == c;
    assert q2 / 10 == a && q2 % 10 == b;
  }
}
