/*
 * `datetime.strptime(text, "%y%m%d%H%M%S")` on the twelve digits of a
 * WSJT-X time stamp, and the `strftime` formats "%Y%m%d" and "%H%M".
 * Each field of the format is two digits here: a one-digit reading of any
 * field would leave text unconverted, which strptime rejects, so the
 * stamp is accepted exactly when the two-digit fields make a real date
 * and time (no 24:00, no leap second: `datetime` refuses second 60 and
 * 61 although the %S pattern admits them).
 */
module PyDateTime {
  import opened PyText

  datatype DateTime = DateTime(year: nat, month: nat, day: nat, hour: nat, minute: nat, second: nat)

  /** Gregorian leap years. */
  predicate IsLeap(y: nat) {
    y % 4 == 0 && (y % 100 != 0 || y % 400 == 0)
  }

  function DaysInMonth(y: nat, m: nat): (d: nat)
    requires 1 <= m <= 12
    ensures 28 <= d <= 31
  {
    if m == 2 then (if IsLeap(y) then 29 else 28)
    else if m == 4 || m == 6 || m == 9 || m == 11 then 30
    else 31
  }

  /** What the `datetime` constructor accepts. */
  predicate Valid(t: DateTime) {
    && 1 <= t.month <= 12
    && 1 <= t.day <= DaysInMonth(t.year, t.month)
    && t.hour < 24 && t.minute < 60 && t.second < 60
  }

  /** The two-digit number at index i. */
  function TwoDigits(s: string, i: nat): (n: nat)
    requires i + 2 <= |s| && AllIn(s, Digit)
    ensures n < 100
  {
    10 * DigitValue(s[i]) + DigitValue(s[i + 1])
  }

  /** `%y`: 69 to 99 are 1969 to 1999, 00 to 68 are 2000 to 2068. */
  function FullYear(yy: nat): (y: nat)
    requires yy < 100
    ensures 1969 <= y <= 2068 && y % 100 == yy
  {
    if yy <= 68 then 2000 + yy else 1900 + yy
  }

  /** `datetime.strptime(s, "%y%m%d%H%M%S")`, None where it raises ValueError. */
  function StrpTime(s: string): (t: Option<DateTime>)
    requires |s| == 12 && AllIn(s, Digit)
    ensures t.Some? ==> Valid(t.value) && 1969 <= t.value.year <= 2068
  {
    var t := DateTime(FullYear(TwoDigits(s, 0)), TwoDigits(s, 2), TwoDigits(s, 4),
                      TwoDigits(s, 6), TwoDigits(s, 8), TwoDigits(s, 10));
    if Valid(t) then Some(t) else None
  }

  /** A number below 100 as two digits, zero-padded. */
  function Pad2(n: nat): (s: string)
    requires n < 100
    ensures |s| == 2 && AllIn(s, Digit)
  {
    [DigitChar(n / 10), DigitChar(n % 10)]
  }

  /** `strftime("%Y%m%d")`. */
  function StrfDate(t: DateTime): (s: string)
    requires Valid(t) && t.year < 10000
    ensures |s| == 8 && AllIn(s, Digit)
  {
    Pad2(t.year / 100) + Pad2(t.year % 100) + Pad2(t.month) + Pad2(t.day)
  }

  /** `strftime("%H%M")`. */
  function StrfHourMinute(t: DateTime): (s: string)
    requires Valid(t)
    ensures |s| == 4 && AllIn(s, Digit)
  {
    Pad2(t.hour) + Pad2(t.minute)
  }

  /** Two digits are rewritten as themselves. */
  lemma Pad2TwoDigits(s: string, i: nat)
    requires i + 2 <= |s| && AllIn(s, Digit)
    ensures Pad2(TwoDigits(s, i)) == s[i..i + 2]
  {
    var a, b := DigitValue(s[i]), DigitValue(s[i + 1]);
    assert (10 * a + b) / 10 == a && (10 * a + b) % 10 == b;
    assert DigitChar(a) == s[i] && DigitChar(b) == s[i + 1];
  }

  /** Reading a stamp and writing its date and time back gives the
    * stamp's own digits, the date preceded by the century %y chose. */
  lemma StampRoundTrip(s: string)
    requires |s| == 12 && AllIn(s, Digit) && StrpTime(s).Some?
    ensures StrfDate(StrpTime(s).value) == (if TwoDigits(s, 0) <= 68 then "20" else "19") + s[..6]
    ensures StrfHourMinute(StrpTime(s).value) == s[6..10]
  {
    var t := StrpTime(s).value;
    Pad2TwoDigits(s, 0);
    Pad2TwoDigits(s, 2);
    Pad2TwoDigits(s, 4);
    Pad2TwoDigits(s, 6);
    Pad2TwoDigits(s, 8);
    assert t.year / 100 == (if TwoDigits(s, 0) <= 68 then 20 else 19);
    assert Pad2(20) == "20" && Pad2(19) == "19";
    assert s[..6] == s[0..2] + s[2..4] + s[4..6];
    assert s[6..10] == s[6..8] + s[8..10];
  }

  /** The twenty-ninth of February exists in 2024 and 2000 but not in 2023,
    * and the sixtieth second is refused. */
  lemma LeapDays()
    ensures StrpTime("240229120000").Some?
    ensures StrpTime("000229120000").Some?
    ensures StrpTime("230229120000").None?
    ensures StrpTime("240101235960").None?
  {
  }
}
