/**
 RFC 3339 timestamps (section 5.6 of RFC 3339) in the form the GitHub API sends them,
 `YYYY-MM-DDTHH:MM:SSZ`; every other string counts as unparseable.
 */
module Timestamps {
  import opened Wrappers
  import opened Calendar

  // `time.Time{}.Unix()`: 0001-01-01T00:00:00Z.
  const ZERO_TIME := -62135596800

  predicate IsDigit(c: char) { '0' <= c <= '9' }

  function DigitValue(c: char): (d: int)
    requires IsDigit(c)
    ensures 0 <= d <= 9
  {
    c as int - '0' as int
  }

  function DigitChar(d: int): (c: char)
    requires 0 <= d <= 9
    ensures IsDigit(c) && DigitValue(c) == d
  {
    (d + '0' as int) as char
  }

  // Positions of the fourteen digits.
  predicate HasLayout(s: string) {
    && |s| == 20
    && s[4] == '-' && s[7] == '-' && s[10] == 'T' && s[13] == ':' && s[16] == ':' && s[19] == 'Z'
    && IsDigit(s[0]) && IsDigit(s[1]) && IsDigit(s[2]) && IsDigit(s[3])
    && IsDigit(s[5]) && IsDigit(s[6]) && IsDigit(s[8]) && IsDigit(s[9])
    && IsDigit(s[11]) && IsDigit(s[12]) && IsDigit(s[14]) && IsDigit(s[15])
    && IsDigit(s[17]) && IsDigit(s[18])
  }

  function TwoDigits(a: char, b: char): (n: int)
    requires IsDigit(a) && IsDigit(b)
    ensures 0 <= n <= 99
  {
    10 * DigitValue(a) + DigitValue(b)
  }

  datatype Stamp = Stamp(date: Civil, hour: int, minute: int, second: int)

  predicate ValidStamp(p: Stamp) {
    Valid(p.date) && 0 <= p.hour < 24 && 0 <= p.minute < 60 && 0 <= p.second < 60
  }

  function Fields(s: string): Stamp
    requires HasLayout(s)
  {
    Stamp(Civil(100 * TwoDigits(s[0], s[1]) + TwoDigits(s[2], s[3]), TwoDigits(s[5], s[6]), TwoDigits(s[8], s[9])),
          TwoDigits(s[11], s[12]), TwoDigits(s[14], s[15]), TwoDigits(s[17], s[18]))
  }

  function Instant(p: Stamp): int
    requires Valid(p.date)
  {
    SECONDS_PER_DAY * DayNumber(p.date) + 3600 * p.hour + 60 * p.minute + p.second
  }

  /** `time.Parse(time.RFC3339, s).Unix()`, or None where `time.Parse` fails. */
  function Parse(s: string): Option<int> {
    if HasLayout(s) && ValidStamp(Fields(s)) then Some(Instant(Fields(s))) else None
  }

  /** `parseTime`: the zero time stands for every unparseable string. */
  function ParseTime(s: string): int {
    match Parse(s)
    case Some(t) => t
    case None => ZERO_TIME
  }

  function Two(n: int): string
    requires 0 <= n <= 99
  {
    [DigitChar(n / 10), DigitChar(n % 10)]
  }

  function Write(p: Stamp): string
    requires ValidStamp(p) && 0 <= p.date.year <= 9999
  {
    Two(p.date.year / 100) + Two(p.date.year % 100) + "-" + Two(p.date.month) + "-" + Two(p.date.day) + "T"
    + Two(p.hour) + ":" + Two(p.minute) + ":" + Two(p.second) + "Z"
  }

  function StampOf(t: int): (p: Stamp)
    ensures ValidStamp(p)
  {
    var r := SecondOfDay(t);
    Stamp(DayOf(t), r / 3600, r % 3600 / 60, r % 60)
  }

  /** The one timestamp string of an instant in the years 0 to 9999. */
  function Format(t: int): string
    requires 0 <= DayOf(t).year <= 9999
  {
    Write(StampOf(t))
  }

  lemma FieldsOfWrite(p: Stamp)
    requires ValidStamp(p) && 0 <= p.date.year <= 9999
    ensures HasLayout(Write(p)) && Fields(Write(p)) == p
  {
  }

  lemma TwoInverse(a: char, b: char)
    requires IsDigit(a) && IsDigit(b)
    ensures Two(TwoDigits(a, b)) == [a, b]
  {
  }

  lemma WriteOfFields(s: string)
    requires HasLayout(s) && ValidStamp(Fields(s))
    ensures 0 <= Fields(s).date.year <= 9999 && Write(Fields(s)) == s
  {
    var y := Fields(s).date.year;
    assert y / 100 == TwoDigits(s[0], s[1]) && y % 100 == TwoDigits(s[2], s[3]);
    TwoInverse(s[0], s[1]);
    TwoInverse(s[2], s[3]);
    TwoInverse(s[5], s[6]);
    TwoInverse(s[8], s[9]);
    TwoInverse(s[11], s[12]);
    TwoInverse(s[14], s[15]);
    TwoInverse(s[17], s[18]);
  }

  lemma InstantOfStamp(t: int)
    ensures Instant(StampOf(t)) == t
  {
    hide DayNumber, CivilOfDay;
    var r := SecondOfDay(t);
    assert r == 3600 * (r / 3600) + 60 * (r % 3600 / 60) + r % 60;
  }

  lemma StampOfInstant(p: Stamp)
    requires ValidStamp(p)
    ensures StampOf(Instant(p)) == p
  {
    hide DayNumber, CivilOfDay;
    var t, r := Instant(p), 3600 * p.hour + 60 * p.minute + p.second;
    assert t / SECONDS_PER_DAY == DayNumber(p.date) && SecondOfDay(t) == r;
    CivilIsUnique(DayOf(t), p.date);
    assert r / 3600 == p.hour && r % 3600 / 60 == p.minute && r % 60 == p.second;
  }

  /** Formatting then parsing gives the instant back. */
  lemma ParseFormat(t: int)
    requires 0 <= DayOf(t).year <= 9999
    ensures Parse(Format(t)) == Some(t)
  {
    FieldsOfWrite(StampOf(t));
    InstantOfStamp(t);
  }

  /** A string parses only if it is the one timestamp of its instant. */
  lemma FormatParse(s: string)
    requires Parse(s).Some?
    ensures 0 <= DayOf(Parse(s).value).year <= 9999
    ensures Format(Parse(s).value) == s
  {
    WriteOfFields(s);
    StampOfInstant(Fields(s));
  }

  lemma ZeroTimeParses(z: string)
    requires z == "0001-01-01T00:00:00Z"
    ensures Parse(z) == Some(ZERO_TIME)
  {
    assert Fields(z) == Stamp(Civil(1, 1, 1), 0, 0, 0);
  }

  /** A timestamp with all fields different: 23 November 2019, 12:34:56. */
  lemma ParsesTimeOfDay(s: string)
    requires s == "2019-11-23T12:34:56Z"
    ensures Parse(s) == Some(1574512496)
  {
    assert Fields(s) == Stamp(Civil(2019, 11, 23), 12, 34, 56);
  }

  /** The fallback is ambiguous for exactly one timestamp, the zero time itself. */
  lemma ParseTimeFallback(s: string)
    ensures ParseTime(s) == ZERO_TIME <==> Parse(s) == None || s == "0001-01-01T00:00:00Z"
  {
    hide Parse, Format;
    var z := "0001-01-01T00:00:00Z";
    ZeroTimeParses(z);
    FormatParse(z);
    if Parse(s) == Some(ZERO_TIME) {
      FormatParse(s);
    }
  }
}
