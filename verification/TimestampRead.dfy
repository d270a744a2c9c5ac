/** A reader of timestamps as section 5.6 of RFC 3339 writes them in UTC, and what it makes of the printed ones. */
module TimestampRead {
  import opened Basics
  import opened Calendar
  import opened Timestamp

  predicate Digits(s: string) {
    forall i :: 0 <= i < |s| ==> '0' <= s[i] <= '9'
  }

  /** The number a row of digits writes. */
  function Number(s: string): nat
    requires Digits(s)
  {
    if s == "" then 0 else 10 * Number(s[..|s| - 1]) + (s[|s| - 1] as nat - '0' as nat)
  }

  /** A field of `w` digits and the mark after it, and what follows. */
  function Field(s: string, w: nat, mark: char): Option<(nat, string)> {
    if |s| > w && Digits(s[..w]) && s[w] == mark then Some((Number(s[..w]), s[w + 1..])) else None
  }

  /** `full-date "T"`: a year of four digits, a month and a day that exists. */
  function ReadDay(s: string): Option<(Date, string)> {
    match Field(s, 4, '-')
    case None => None
    case Some((year, s1)) =>
      match Field(s1, 2, '-')
      case None => None
      case Some((month, s2)) =>
        match Field(s2, 2, 'T')
        case None => None
        case Some((day, s3)) =>
          if Valid(Date(year, month, day)) then Some((Date(year, month, day), s3)) else None
  }

  /** `partial-time "Z"`, up to the end of the text: seconds since midnight. */
  function ReadClock(s: string): Option<nat> {
    match Field(s, 2, ':')
    case None => None
    case Some((hour, s1)) =>
      match Field(s1, 2, ':')
      case None => None
      case Some((minute, s2)) =>
        match Field(s2, 2, 'Z')
        case None => None
        case Some((second, s3)) =>
          if hour <= 23 && minute <= 59 && second <= 60 && s3 == "" then Some(3600 * hour + 60 * minute + second) else None
  }

  /** The date and the second of the day a `date-time` names. */
  function ReadTimestamp(s: string): Option<(Date, nat)> {
    match ReadDay(s)
    case None => None
    case Some((t, rest)) =>
      match ReadClock(rest)
      case None => None
      case Some(secs) => Some((t, secs))
  }

  lemma {:induction false} PadReads(n: nat, w: nat)
    ensures Digits(Pad(n, w)) && Number(Pad(n, w)) == n
    decreases n + w
  {
    if n < 10 && w <= 1 {
      assert Pad(n, w)[..0] == "";
    } else {
      PadReads(n / 10, if w == 0 then 0 else w - 1);
      var front := Pad(n / 10, if w == 0 then 0 else w - 1);
      assert (front + [Digit(n % 10)])[..|front|] == front;
    }
  }

  lemma FieldReads(n: nat, w: nat, mark: char, rest: string)
    requires w >= 1 && n < Pow10(w)
    ensures Field(Pad(n, w) + ([mark] + rest), w, mark) == Some((n, rest))
  {
    var pad := Pad(n, w);
    var s := pad + ([mark] + rest);
    PadWidth(n, w);
    PadReads(n, w);
    assert s[..w] == pad && s[w] == mark && s[w + 1..] == rest;
  }

  lemma ClockReads(s: nat)
    requires s < 86400
    ensures ReadClock(Clock(s)) == Some(s)
  {
    assert Pow10(1) == 10 && Pow10(2) == 100;
    var last := Pad(s % 60, 2) + "Z";
    var mid := Pad(s % 3600 / 60, 2) + (":" + last);
    assert "Z" == ['Z'] + "";
    FieldReads(s / 3600, 2, ':', mid);
    FieldReads(s % 3600 / 60, 2, ':', last);
    FieldReads(s % 60, 2, 'Z', "");
    SecondOfHour(s);
  }

  lemma DayReads(t: Date, rest: string)
    requires Valid(t) && t.year <= 9999
    ensures ReadDay(DayText(t, rest)) == Some((t, rest))
  {
    assert Pow10(1) == 10 && Pow10(2) == 100 && Pow10(3) == 1000 && Pow10(4) == 10000;
    var last := Pad(t.day, 2) + ("T" + rest);
    var mid := Pad(t.month, 2) + ("-" + last);
    FieldReads(t.year, 4, '-', mid);
    FieldReads(t.month, 2, '-', last);
    FieldReads(t.day, 2, 'T', rest);
  }

  /** A year of five digits has no mark after its fourth. */
  lemma FiveDigitsDoNotRead(t: Date, rest: string)
    requires t.year >= 10000
    ensures ReadDay(DayText(t, rest)).None?
  {
    LongPad(t.year, 4);
    PadReads(t.year, 4);
    assert DayText(t, rest)[4] == Pad(t.year, 4)[4];
  }

  lemma {:induction false} LongPad(n: nat, w: nat)
    requires n >= Pow10(w)
    ensures |Pad(n, w)| > w
    decreases w
  {
    if w > 0 { LongPad(n / 10, w - 1); }
  }

  lemma YearsOfDays(secs: nat)
    ensures Valid(DaysToYmd(secs / 86400))
    ensures secs < YEAR_10000 <==> DaysToYmd(secs / 86400).year <= 9999
  {
    LastDays();
    if secs < YEAR_10000 {
      OrderedDates(secs / 86400, DAY_10000 - 1);
    } else {
      OrderedDates(DAY_10000, secs / 86400);
    }
  }

  lemma StampReads(t: Date, s: nat)
    requires Valid(t) && s < 86400
    ensures ReadTimestamp(DayText(t, Clock(s))) == if t.year <= 9999 then Some((t, s)) else None
  {
    if t.year <= 9999 {
      DayReads(t, Clock(s));
      ClockReads(s);
    } else {
      FiveDigitsDoNotRead(t, Clock(s));
    }
  }

  /**
    Reading a printed timestamp gives its instant back, exactly through the year 9999: the
    date that many days after 1 January 1970, and the second of that day. Past it none is read.
   */
  lemma ReadsBackIff(secs: nat)
    ensures ReadTimestamp(Iso(secs)) ==
            if secs < YEAR_10000 then Some((Counted(secs / 86400), secs % 86400)) else None
  {
    YearsOfDays(secs);
    DaysToYmdCounts(secs / 86400);
    StampReads(DaysToYmd(secs / 86400), secs % 86400);
  }
}
