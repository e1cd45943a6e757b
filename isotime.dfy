/**
 * Naive Python `datetime`/`date` values and the three text forms the core meets:
 * `isoformat()` (what the row serializer produces), `strftime("%Y-%m-%d %H:%M:%S")`
 * (what the response envelopes display) and a reference parser for the canonical
 * ISO forms, which recovers every value `isoformat()` produces.
 */
module IsoTime {
  import opened Wrappers

  datatype DateTime = DateTime(year: nat, month: nat, day: nat,
                               hour: nat, minute: nat, second: nat, microsecond: nat)

  datatype Date = Date(year: nat, month: nat, day: nat)

  const MinYear := 1
  const MaxYear := 9999

  predicate IsLeapYear(y: nat) {
    y % 4 == 0 && (y % 100 != 0 || y % 400 == 0)
  }

  function DaysInMonth(y: nat, m: nat): nat
    requires 1 <= m <= 12
  {
    if m == 2 then (if IsLeapYear(y) then 29 else 28)
    else if m == 4 || m == 6 || m == 9 || m == 11 then 30
    else 31
  }

  predicate ValidDate(y: nat, m: nat, d: nat) {
    MinYear <= y <= MaxYear && 1 <= m <= 12 && 1 <= d <= DaysInMonth(y, m)
  }

  /** The values Python's `datetime` constructor admits. */
  predicate ValidDateTime(t: DateTime) {
    && ValidDate(t.year, t.month, t.day)
    && t.hour < 24 && t.minute < 60 && t.second < 60 && t.microsecond < 1000000
  }

  function Pow10(n: nat): nat {
    if n == 0 then 1 else 10 * Pow10(n - 1)
  }

  predicate IsDigit(c: char) {
    '0' <= c <= '9'
  }

  predicate AllDigits(s: string) {
    forall i :: 0 <= i < |s| ==> IsDigit(s[i])
  }

  function DigitChar(d: nat): (c: char)
    requires d < 10
    ensures IsDigit(c) && c as int - '0' as int == d
  {
    ('0' as int + d) as char
  }

  /** The last `width` decimal digits of `n`, zero-padded: `"%0*d" % (width, n)` for `n < 10^width`. */
  function Padded(n: nat, width: nat): (s: string)
    ensures |s| == width && AllDigits(s)
  {
    if width == 0 then "" else Padded(n / 10, width - 1) + [DigitChar(n % 10)]
  }

  /** The value of a string of decimal digits; `None` when some character is not a digit. */
  function ParseDigits(s: string): (r: Option<nat>)
    ensures r.Some? <==> AllDigits(s)
    ensures r.Some? ==> r.value < Pow10(|s|)
  {
    if |s| == 0 then Some(0)
    else
      match ParseDigits(s[..|s| - 1])
      case None => None
      case Some(p) =>
        if IsDigit(s[|s| - 1]) then Some(10 * p + (s[|s| - 1] as int - '0' as int)) else None
  }

  lemma {:induction false} ParsePadded(n: nat, width: nat)
    requires n < Pow10(width)
    ensures ParseDigits(Padded(n, width)) == Some(n)
  {
    if width > 0 {
      assert n / 10 < Pow10(width - 1);
      ParsePadded(n / 10, width - 1);
      var s := Padded(n, width);
      assert s[..|s| - 1] == Padded(n / 10, width - 1);
    }
  }

  function DateText(y: nat, m: nat, d: nat): string {
    Padded(y, 4) + "-" + Padded(m, 2) + "-" + Padded(d, 2)
  }

  function ClockText(h: nat, mi: nat, s: nat): string {
    Padded(h, 2) + ":" + Padded(mi, 2) + ":" + Padded(s, 2)
  }

  /** `date.isoformat()`: `YYYY-MM-DD`. */
  function DateIsoFormat(d: Date): string {
    DateText(d.year, d.month, d.day)
  }

  /** `datetime.isoformat()` of a naive value: `YYYY-MM-DDTHH:MM:SS`, then `.ffffff` unless the microsecond is 0. */
  function DateTimeIsoFormat(t: DateTime): string {
    DateText(t.year, t.month, t.day) + "T" + ClockText(t.hour, t.minute, t.second)
    + (if t.microsecond == 0 then "" else "." + Padded(t.microsecond, 6))
  }

  /** `strftime("%Y-%m-%d %H:%M:%S")`: the display form of the response envelopes. */
  function Strftime(t: DateTime): string {
    DateText(t.year, t.month, t.day) + " " + ClockText(t.hour, t.minute, t.second)
  }

  /**
   * Reference parser for the canonical forms of `datetime.fromisoformat`: `YYYY-MM-DD`,
   * `YYYY-MM-DD?HH:MM:SS` with any one separator character, and the same followed by
   * `.ffffff`. Out-of-range fields are rejected, as the `datetime` constructor rejects them.
   */
  function ParseIso(s: string): (r: Option<DateTime>)
    ensures r.Some? ==> ValidDateTime(r.value)
  {
    if |s| != 10 && |s| != 19 && !(|s| == 26 && s[19] == '.') then None
    else if s[4] != '-' || s[7] != '-' then None
    else
      var y, m, d := ParseDigits(s[0..4]), ParseDigits(s[5..7]), ParseDigits(s[8..10]);
      if y.None? || m.None? || d.None? || !ValidDate(y.value, m.value, d.value) then None
      else if |s| == 10 then Some(DateTime(y.value, m.value, d.value, 0, 0, 0, 0))
      else if s[13] != ':' || s[16] != ':' then None
      else
        var h, mi, sec := ParseDigits(s[11..13]), ParseDigits(s[14..16]), ParseDigits(s[17..19]);
        var us := if |s| == 26 then ParseDigits(s[20..26]) else Some(0);
        if h.None? || mi.None? || sec.None? || us.None? then None
        else if h.value >= 24 || mi.value >= 60 || sec.value >= 60 then None
        else Some(DateTime(y.value, m.value, d.value, h.value, mi.value, sec.value, us.value))
  }

  lemma DateFieldsParse(y: nat, m: nat, d: nat, rest: string)
    requires y < 10000 && m < 100 && d < 100
    ensures var s := DateText(y, m, d) + rest;
      && |s| == 10 + |rest| && s[4] == '-' && s[7] == '-'
      && ParseDigits(s[0..4]) == Some(y) && ParseDigits(s[5..7]) == Some(m)
      && ParseDigits(s[8..10]) == Some(d)
  {
    var s := DateText(y, m, d) + rest;
    assert s[0..4] == Padded(y, 4);
    assert s[5..7] == Padded(m, 2);
    assert s[8..10] == Padded(d, 2);
    ParsePadded(y, 4);
    ParsePadded(m, 2);
    ParsePadded(d, 2);
  }

  lemma ClockTextFields(h: nat, mi: nat, sec: nat)
    ensures var c := ClockText(h, mi, sec);
      && |c| == 8 && c[2] == ':' && c[5] == ':'
      && c[0..2] == Padded(h, 2) && c[3..5] == Padded(mi, 2) && c[6..8] == Padded(sec, 2)
  {
  }

  lemma ClockFieldsParse(prefix: string, h: nat, mi: nat, sec: nat, rest: string)
    requires |prefix| == 11 && h < 100 && mi < 100 && sec < 100
    ensures var s := prefix + ClockText(h, mi, sec) + rest;
      && |s| == 19 + |rest| && s[13] == ':' && s[16] == ':'
      && ParseDigits(s[11..13]) == Some(h) && ParseDigits(s[14..16]) == Some(mi)
      && ParseDigits(s[17..19]) == Some(sec)
  {
    var c := ClockText(h, mi, sec);
    ClockTextFields(h, mi, sec);
    var s := prefix + c + rest;
    assert s[11..19] == c;
    assert s[11..13] == c[0..2];
    assert s[14..16] == c[3..5];
    assert s[17..19] == c[6..8];
    ParsePadded(h, 2);
    ParsePadded(mi, 2);
    ParsePadded(sec, 2);
  }

  /** What the parser demands of a string with a time part, field by field. */
  lemma ParseIsoAccepts(s: string, t: DateTime)
    requires ValidDateTime(t)
    requires |s| == 19 || (|s| == 26 && s[19] == '.')
    requires s[4] == '-' && s[7] == '-' && s[13] == ':' && s[16] == ':'
    requires ParseDigits(s[0..4]) == Some(t.year) && ParseDigits(s[5..7]) == Some(t.month)
    requires ParseDigits(s[8..10]) == Some(t.day) && ParseDigits(s[11..13]) == Some(t.hour)
    requires ParseDigits(s[14..16]) == Some(t.minute) && ParseDigits(s[17..19]) == Some(t.second)
    requires if |s| == 26 then ParseDigits(s[20..26]) == Some(t.microsecond) else t.microsecond == 0
    ensures ParseIso(s) == Some(t)
  {
  }

  /** The date and clock fields of `YYYY-MM-DD?HH:MM:SS` followed by anything. */
  lemma StampFieldsParse(t: DateTime, sep: char, rest: string)
    requires ValidDateTime(t)
    ensures var s := DateText(t.year, t.month, t.day) + [sep] + ClockText(t.hour, t.minute, t.second) + rest;
      && |s| == 19 + |rest| && s[4] == '-' && s[7] == '-' && s[13] == ':' && s[16] == ':'
      && ParseDigits(s[0..4]) == Some(t.year) && ParseDigits(s[5..7]) == Some(t.month)
      && ParseDigits(s[8..10]) == Some(t.day) && ParseDigits(s[11..13]) == Some(t.hour)
      && ParseDigits(s[14..16]) == Some(t.minute) && ParseDigits(s[17..19]) == Some(t.second)
      && s[19..] == rest
  {
    var date := DateText(t.year, t.month, t.day);
    var clock := ClockText(t.hour, t.minute, t.second);
    var s := date + [sep] + clock + rest;
    assert s == date + ([sep] + clock + rest);
    DateFieldsParse(t.year, t.month, t.day, [sep] + clock + rest);
    ClockFieldsParse(date + [sep], t.hour, t.minute, t.second, rest);
  }

  /** Parsing what `datetime.isoformat()` produced gives back the same instant. */
  lemma IsoFormatRoundTrip(t: DateTime)
    requires ValidDateTime(t)
    ensures ParseIso(DateTimeIsoFormat(t)) == Some(t)
  {
    var frac := if t.microsecond == 0 then "" else "." + Padded(t.microsecond, 6);
    var s := DateTimeIsoFormat(t);
    assert s == DateText(t.year, t.month, t.day) + ['T'] + ClockText(t.hour, t.minute, t.second) + frac;
    StampFieldsParse(t, 'T', frac);
    if t.microsecond != 0 {
      assert s[19..] == frac;
      assert s[20..26] == frac[1..];
      ParsePadded(t.microsecond, 6);
    }
    ParseIsoAccepts(s, t);
  }

  /** Parsing what `date.isoformat()` produced gives midnight of that day. */
  lemma DateIsoFormatRoundTrip(d: Date)
    requires ValidDate(d.year, d.month, d.day)
    ensures ParseIso(DateIsoFormat(d)) == Some(DateTime(d.year, d.month, d.day, 0, 0, 0, 0))
  {
    DateFieldsParse(d.year, d.month, d.day, "");
    assert DateIsoFormat(d) == DateText(d.year, d.month, d.day) + "";
  }

  /** The display form parses back to the same instant with its microseconds dropped. */
  lemma StrftimeParses(t: DateTime)
    requires ValidDateTime(t)
    ensures ParseIso(Strftime(t)) == Some(t.(microsecond := 0))
  {
    var s := Strftime(t);
    assert s == DateText(t.year, t.month, t.day) + [' '] + ClockText(t.hour, t.minute, t.second) + "";
    StampFieldsParse(t, ' ', "");
    ParseIsoAccepts(s, t.(microsecond := 0));
  }

}
