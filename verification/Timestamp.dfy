/** The text of a timestamp (section 5.6 of RFC 3339, in UTC) and its order. */
module Timestamp {
  import opened Basics
  import opened Calendar

  function Digit(d: nat): char
    requires d < 10
  {
    '0' + d as char
  }

  /** Decimal digits, zero-filled to at least `w` of them. */
  function Pad(n: nat, w: nat): string
    decreases n + w
  {
    if n < 10 && w <= 1 then [Digit(n)]
    else Pad(n / 10, if w == 0 then 0 else w - 1) + [Digit(n % 10)]
  }

  function Pow10(w: nat): nat {
    if w == 0 then 1 else 10 * Pow10(w - 1)
  }

  /** `now_iso8601` of a number of seconds since the epoch. */
  function Iso(secs: nat): string {
    DayText(DaysToYmd(secs / 86400), Clock(secs % 86400))
  }

  function DayText(t: Date, rest: string): string {
    Pad(t.year, 4) + ("-" + (Pad(t.month, 2) + ("-" + (Pad(t.day, 2) + ("T" + rest)))))
  }

  function Clock(s: nat): string {
    Pad(s / 3600, 2) + (":" + (Pad(s % 3600 / 60, 2) + (":" + (Pad(s % 60, 2) + "Z"))))
  }

  // ------------------------------------------------------------------ text order

  lemma {:induction false} EarlierField(x: string, y: string, u: string, v: string)
    requires |x| == |y| && TextLess(x, y)
    ensures TextLess(x + u, y + v)
  {
    if x[0] == y[0] {
      EarlierField(x[1..], y[1..], u, v);
      assert (x + u)[1..] == x[1..] + u && (y + v)[1..] == y[1..] + v;
    }
  }

  lemma {:induction false} SameField(x: string, u: string, v: string)
    requires TextLess(u, v)
    ensures TextLess(x + u, x + v)
  {
    if x == "" {
      assert x + u == u && x + v == v;
    } else {
      SameField(x[1..], u, v);
      assert (x + u)[1..] == x[1..] + u && (x + v)[1..] == x[1..] + v;
    }
  }

  lemma {:induction false} PadWidth(n: nat, w: nat)
    requires w >= 1 && n < Pow10(w)
    ensures |Pad(n, w)| == w
    decreases w
  {
    if w > 1 { PadWidth(n / 10, w - 1); }
  }

  /** Numbers of one width sort as text the way they sort as numbers. */
  lemma {:induction false} PadSorts(m: nat, n: nat, w: nat)
    requires w >= 1 && m < n < Pow10(w)
    ensures TextLess(Pad(m, w), Pad(n, w))
    decreases w
  {
    if w > 1 {
      PadWidth(m / 10, w - 1);
      PadWidth(n / 10, w - 1);
      if m / 10 < n / 10 {
        PadSorts(m / 10, n / 10, w - 1);
        EarlierField(Pad(m / 10, w - 1), Pad(n / 10, w - 1), [Digit(m % 10)], [Digit(n % 10)]);
      } else {
        SameField(Pad(m / 10, w - 1), [Digit(m % 10)], [Digit(n % 10)]);
      }
    }
  }

  /** One field of a timestamp: either it decides, or it is equal and the rest does. */
  lemma FieldSorts(m: nat, n: nat, w: nat, u: string, v: string)
    requires w >= 1 && m < Pow10(w) && n < Pow10(w)
    requires m < n || (m == n && TextLess(u, v))
    ensures TextLess(Pad(m, w) + u, Pad(n, w) + v)
  {
    PadWidth(m, w);
    PadWidth(n, w);
    if m < n {
      PadSorts(m, n, w);
      EarlierField(Pad(m, w), Pad(n, w), u, v);
    } else {
      SameField(Pad(m, w), u, v);
    }
  }

  lemma MinutesSort(r: nat, s: nat)
    requires r < s < 3600
    ensures TextLess(Pad(r / 60, 2) + (":" + (Pad(r % 60, 2) + "Z")), Pad(s / 60, 2) + (":" + (Pad(s % 60, 2) + "Z")))
  {
    assert Pow10(1) == 10 && Pow10(2) == 100;
    if r / 60 == s / 60 {
      FieldSorts(r % 60, s % 60, 2, "Z", "Z");
      SameField(":", Pad(r % 60, 2) + "Z", Pad(s % 60, 2) + "Z");
    }
    FieldSorts(r / 60, s / 60, 2, ":" + (Pad(r % 60, 2) + "Z"), ":" + (Pad(s % 60, 2) + "Z"));
  }

  lemma SecondOfHour(r: nat)
    ensures r % 3600 % 60 == r % 60
  {
    assert r == 60 * (60 * (r / 3600)) + r % 3600;
  }

  lemma ClockSorts(r: nat, s: nat)
    requires r < s < 86400
    ensures TextLess(Clock(r), Clock(s))
  {
    assert Pow10(1) == 10 && Pow10(2) == 100;
    var u := Pad(r % 3600 / 60, 2) + (":" + (Pad(r % 60, 2) + "Z"));
    var v := Pad(s % 3600 / 60, 2) + (":" + (Pad(s % 60, 2) + "Z"));
    if r / 3600 == s / 3600 {
      SecondOfHour(r);
      SecondOfHour(s);
      MinutesSort(r % 3600, s % 3600);
      SameField(":", u, v);
    }
    FieldSorts(r / 3600, s / 3600, 2, ":" + u, ":" + v);
  }

  lemma DayTextSorts(s: Date, t: Date, u: string, v: string)
    requires Valid(s) && Valid(t) && s.year <= 9999 && t.year <= 9999
    requires Before(s, t) || (s == t && TextLess(u, v))
    ensures TextLess(DayText(s, u), DayText(t, v))
  {
    assert Pow10(1) == 10 && Pow10(2) == 100 && Pow10(3) == 1000 && Pow10(4) == 10000;
    var u1, v1 := Pad(s.day, 2) + ("T" + u), Pad(t.day, 2) + ("T" + v);
    var u2, v2 := Pad(s.month, 2) + ("-" + u1), Pad(t.month, 2) + ("-" + v1);
    if s.year == t.year {
      if s.month == t.month {
        if s.day == t.day { SameField("T", u, v); }
        FieldSorts(s.day, t.day, 2, "T" + u, "T" + v);
        SameField("-", u1, v1);
      }
      FieldSorts(s.month, t.month, 2, "-" + u1, "-" + v1);
      SameField("-", u2, v2);
    }
    FieldSorts(s.year, t.year, 4, "-" + u2, "-" + v2);
  }

  lemma StampSorts(t: Date, u: Date, a: nat, b: nat)
    requires Valid(t) && Valid(u) && t.year <= 9999 && u.year <= 9999
    requires Before(t, u) || (t == u && a < b < 86400)
    ensures TextLess(DayText(t, Clock(a)), DayText(u, Clock(b)))
  {
    if t == u && a < b { ClockSorts(a, b); }
    DayTextSorts(t, u, Clock(a), Clock(b));
  }

  lemma InstantOrder(r: nat, s: nat)
    requires r < s
    ensures r / 86400 < s / 86400 || (r / 86400 == s / 86400 && r % 86400 < s % 86400)
  {
  }

  lemma OrderedDates(m: nat, n: nat)
    requires m <= n
    ensures Valid(DaysToYmd(m)) && Valid(DaysToYmd(n))
    ensures m < n ==> Before(DaysToYmd(m), DaysToYmd(n))
    ensures DaysToYmd(m).year <= DaysToYmd(n).year
  {
    DaysToYmdCounts(m);
    DaysToYmdCounts(n);
    if m < n { DaysToYmdIsMonotone(m, n); }
  }

  /** The first second of the year 10000, and the day it falls on. */
  const YEAR_10000: nat := 253402300800
  const DAY_10000: nat := 2932897

  lemma DateOfDay(n: nat, e: nat, doe: nat)
    requires doe < 146097 && n + 719468 == 146097 * e + doe
    ensures DaysToYmd(n) == DateOfEra(e, doe)
  {
    EraOf(n + 719468, e, doe);
  }

  lemma LastDate()
    ensures DateOfEra(24, 146036) == Date(9999, 12, 31)
  {
  }

  lemma FirstDate()
    ensures DateOfEra(24, 146037) == Date(10000, 1, 1)
  {
  }

  lemma LastDays()
    ensures DaysToYmd(DAY_10000 - 1) == Date(9999, 12, 31) && DaysToYmd(DAY_10000) == Date(10000, 1, 1)
  {
    DateOfDay(DAY_10000 - 1, 24, 146036);
    DateOfDay(DAY_10000, 24, 146037);
    LastDate();
    FirstDate();
  }

  /** Timestamps sort as text in time order, through the year 9999; in particular
      distinct instants print differently. */
  lemma IsoSorts(r: nat, s: nat)
    requires r < s < YEAR_10000
    ensures TextLess(Iso(r), Iso(s)) && Iso(r) != Iso(s)
  {
    LastDays();
    InstantOrder(r, s);
    OrderedDates(r / 86400, s / 86400);
    OrderedDates(s / 86400, DAY_10000 - 1);
    StampSorts(DaysToYmd(r / 86400), DaysToYmd(s / 86400), r % 86400, s % 86400);
    OneWay(Iso(r), Iso(s));
  }

  lemma FiveDigitYearSortsFirst(t: Date, u: Date, x: string, y: string)
    requires t.year == 9999 && u.year == 10000
    ensures TextLess(DayText(u, y), DayText(t, x))
  {
    assert Pad(99, 2) == "99";
    assert Pad(999, 3) == "999";
    assert Pad(9999, 4) == "9999";
    assert Pad(10, 1) == "10";
    assert Pad(100, 2) == "100";
    assert Pad(1000, 3) == "1000";
    assert Pad(10000, 4) == "10000";
    assert DayText(t, x)[0] == '9' && DayText(u, y)[0] == '1';
  }

  /** Four digits are not enough beyond: the last second of the year 9999 sorts after the next one. */
  lemma IsoBreaksAtTenThousand()
    ensures TextLess(Iso(YEAR_10000), Iso(YEAR_10000 - 1))
  {
    LastDays();
    assert (YEAR_10000 - 1) / 86400 == DAY_10000 - 1 && YEAR_10000 / 86400 == DAY_10000;
    FiveDigitYearSortsFirst(DaysToYmd(DAY_10000 - 1), DaysToYmd(DAY_10000),
                            Clock((YEAR_10000 - 1) % 86400), Clock(YEAR_10000 % 86400));
  }

  /** All timestamps before `limit` sort as text in time order. */
  ghost predicate SortsBelow(limit: nat) {
    forall r: nat, s: nat :: r < s < limit ==> TextLess(Iso(r), Iso(s))
  }

  /** Text order is time order exactly up to the end of the year 9999. */
  lemma SortsBelowIff(limit: nat)
    ensures SortsBelow(limit) <==> limit <= YEAR_10000
  {
    if limit <= YEAR_10000 {
      forall r: nat, s: nat | r < s < limit
        ensures TextLess(Iso(r), Iso(s))
      {
        IsoSorts(r, s);
      }
    } else {
      IsoBreaksAtTenThousand();
      OneWay(Iso(YEAR_10000), Iso(YEAR_10000 - 1));
    }
  }
}
