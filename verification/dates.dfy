/** The calendar date of a paper's `publishedAt` timestamp.

    The renderer reads it as
    `datetime.fromisoformat(published_at.replace('Z', '+00:00')).strftime('%Y-%m-%d')`.
    Only the date fields matter for that result: the time of day and the UTC offset
    are parsed and then dropped, and no conversion to another time zone happens. */
module Dates {

  predicate IsDigit(c: char) {
    '0' <= c <= '9'
  }

  predicate AllDigits(s: string) {
    forall i :: 0 <= i < |s| ==> IsDigit(s[i])
  }

  function DigitValue(c: char): (n: nat)
    requires IsDigit(c)
    ensures n <= 9
  {
    (c as int) - ('0' as int)
  }

  function DigitChar(n: nat): (c: char)
    requires n <= 9
    ensures IsDigit(c) && DigitValue(c) == n
  {
    (n + ('0' as int)) as char
  }

  /** The decimal value of a string of digits. */
  function Number(s: string): nat
    requires AllDigits(s)
  {
    if s == [] then 0 else 10 * Number(s[..|s| - 1]) + DigitValue(s[|s| - 1])
  }

  /** `n` in decimal, zero-padded (and cut) to exactly `width` digits. */
  function Padded(n: nat, width: nat): (r: string)
    ensures |r| == width && AllDigits(r)
  {
    if width == 0 then [] else Padded(n / 10, width - 1) + [DigitChar(n % 10)]
  }

  datatype Date = Date(year: int, month: int, day: int)

  predicate IsLeapYear(y: int) {
    y % 4 == 0 && (y % 100 != 0 || y % 400 == 0)
  }

  function DaysInMonth(year: int, month: int): int
    requires 1 <= month <= 12
  {
    if month == 2 then (if IsLeapYear(year) then 29 else 28)
    else if month == 4 || month == 6 || month == 9 || month == 11 then 30
    else 31
  }

  /** A date `datetime` accepts, with a four-digit year. */
  predicate ValidDate(d: Date) {
    && 1000 <= d.year <= 9999
    && 1 <= d.month <= 12
    && 1 <= d.day <= DaysInMonth(d.year, d.month)
  }

  /** `s` begins with `YYYY-MM-DD`. */
  predicate HasDateShape(s: string) {
    && |s| >= 10
    && AllDigits(s[0..4]) && s[4] == '-'
    && AllDigits(s[5..7]) && s[7] == '-'
    && AllDigits(s[8..10])
  }

  /** The year, month and day fields of a timestamp that begins with `YYYY-MM-DD`. */
  function DateFields(s: string): Date
    requires HasDateShape(s)
  {
    Date(Number(s[0..4]), Number(s[5..7]), Number(s[8..10]))
  }

  /** A timestamp whose date part `fromisoformat` accepts. */
  predicate WellFormedTimestamp(s: string) {
    HasDateShape(s) && ValidDate(DateFields(s))
  }

  /** `s.replace('Z', '+00:00')`. */
  function ReplaceZ(s: string): string {
    if s == [] then [] else (if s[0] == 'Z' then "+00:00" else [s[0]]) + ReplaceZ(s[1..])
  }

  /** The date `datetime.fromisoformat` reads from a well-formed timestamp. */
  function FromIsoFormat(s: string): (d: Date)
    requires WellFormedTimestamp(s)
    ensures ValidDate(d)
  {
    DateFields(s)
  }

  /** `d.strftime('%Y-%m-%d')`. */
  function StrfDate(d: Date): (r: string)
    requires ValidDate(d)
    ensures |r| == 10 && r[4] == '-' && r[7] == '-'
  {
    Padded(d.year, 4) + "-" + Padded(d.month, 2) + "-" + Padded(d.day, 2)
  }

  /** The `date_str` of `json_to_markdown` for the first record's timestamp. */
  function DateString(publishedAt: string): (r: string)
    requires WellFormedTimestamp(publishedAt)
    ensures r == publishedAt[..10]
  {
    var iso := ReplaceZ(publishedAt);
    ReplaceZKeepsDate(publishedAt);
    FromIsoFormatRoundTrip(iso);
    StrfDate(FromIsoFormat(iso))
  }

  lemma {:induction false} NumberRoundTrip(s: string)
    requires AllDigits(s)
    ensures Padded(Number(s), |s|) == s
  {
    if s != [] {
      var init := s[..|s| - 1];
      NumberRoundTrip(init);
      var n := Number(s);
      assert n / 10 == Number(init) && n % 10 == DigitValue(s[|s| - 1]);
      assert s == init + [s[|s| - 1]];
    }
  }

  /** `strftime('%Y-%m-%d')` gives back exactly the date text `fromisoformat` read. */
  lemma FromIsoFormatRoundTrip(s: string)
    requires WellFormedTimestamp(s)
    ensures StrfDate(FromIsoFormat(s)) == s[..10]
  {
    var d := FromIsoFormat(s);
    assert Padded(d.year, 4) == s[0..4] by { NumberRoundTrip(s[0..4]); }
    assert Padded(d.month, 2) == s[5..7] by { NumberRoundTrip(s[5..7]); }
    assert Padded(d.day, 2) == s[8..10] by { NumberRoundTrip(s[8..10]); }
    assert s[..10] == s[0..4] + [s[4]] + s[5..7] + [s[7]] + s[8..10];
  }

  lemma {:induction false} ReplaceZConcat(a: string, b: string)
    ensures ReplaceZ(a + b) == ReplaceZ(a) + ReplaceZ(b)
  {
    if a == [] {
      assert a + b == b;
    } else {
      assert (a + b)[0] == a[0] && (a + b)[1..] == a[1..] + b;
      ReplaceZConcat(a[1..], b);
    }
  }

  /** `s.replace('Z', '+00:00')` leaves no `Z`, and returns a text without one as
      it is. */
  lemma {:induction false} ReplaceZSpec(s: string)
    ensures 'Z' !in ReplaceZ(s)
    ensures 'Z' !in s ==> ReplaceZ(s) == s
  {
    if s != [] {
      ReplaceZSpec(s[1..]);
      assert s == [s[0]] + s[1..];
    }
  }

  /** Replacing the UTC designator leaves the date part of a timestamp alone. */
  lemma ReplaceZKeepsDate(s: string)
    requires WellFormedTimestamp(s)
    ensures WellFormedTimestamp(ReplaceZ(s))
    ensures ReplaceZ(s)[..10] == s[..10]
  {
    var head := s[..10];
    assert s == head + s[10..];
    assert forall i :: 0 <= i < 10 ==> head[i] == '-' || IsDigit(head[i]);
    ReplaceZSpec(head);
    ReplaceZConcat(head, s[10..]);
    var r := ReplaceZ(s);
    assert r[..10] == head;
    assert r[0..4] == s[0..4] && r[5..7] == s[5..7] && r[8..10] == s[8..10];
  }
}
