/**
  Day numbers and dates of the audit log: the era arithmetic of `days_to_ymd`
  against the Gregorian calendar counted one day at a time.
 */
module Calendar {
  datatype Date = Date(year: nat, month: nat, day: nat)

  // ---------------------------------------------------------- the calendar itself

  predicate Leap(y: nat) {
    y % 4 == 0 && (y % 100 != 0 || y % 400 == 0)
  }

  function MonthLength(y: nat, m: nat): nat {
    if m == 2 then (if Leap(y) then 29 else 28)
    else if m == 4 || m == 6 || m == 9 || m == 11 then 30
    else 31
  }

  predicate Valid(t: Date) {
    1 <= t.month <= 12 && 1 <= t.day <= MonthLength(t.year, t.month)
  }

  function Tomorrow(t: Date): Date {
    if t.day < MonthLength(t.year, t.month) then t.(day := t.day + 1)
    else if t.month < 12 then Date(t.year, t.month + 1, 1)
    else Date(t.year + 1, 1, 1)
  }

  const EPOCH := Date(1970, 1, 1)

  /** The date `n` days after the epoch, counted one by one. */
  function Counted(n: nat): (t: Date)
    ensures Valid(t) && t.year >= 1970
  {
    if n == 0 then EPOCH else Tomorrow(Counted(n - 1))
  }

  predicate Before(s: Date, t: Date) {
    || s.year < t.year
    || (s.year == t.year && s.month < t.month)
    || (s.year == t.year && s.month == t.month && s.day < t.day)
  }

  // ------------------------------------------------------------------- the code

  /** `days_to_ymd`: era and day of era, then the date within the era. */
  function DaysToYmd(days: nat): Date {
    var z := days + 719468;
    var era := z / 146097;
    DateOfEra(era, z - era * 146097)
  }

  function DateOfEra(era: nat, doe: nat): Date
    requires doe < 146097
  {
    var yoe := (doe - doe / 1460 + doe / 36524 - doe / 146096) / 365;
    var y := yoe + era * 400;
    var doy := doe - (365 * yoe + yoe / 4 - yoe / 100);
    var mp := (5 * doy + 2) / 153;
    var d := doy - (153 * mp + 2) / 5 + 1;
    var m := if mp < 10 then mp + 3 else mp - 9;
    Date(if m <= 2 then y + 1 else y, m, d)
  }

  // --------------------------------------------- day numbers of March-based years

  /** Days before 1 March of year `y`, counted from 1 March of year 0. */
  function YearStart(y: nat): nat {
    365 * y + y / 4 - y / 100 + y / 400
  }

  /** Days from 1 March to the start of the `mp`-th month after it. */
  function MonthStart(mp: nat): nat {
    (153 * mp + 2) / 5
  }

  function MarchYear(t: Date): int { if t.month <= 2 then t.year - 1 else t.year }

  function MarchMonth(t: Date): int { if t.month <= 2 then t.month + 9 else t.month - 3 }

  function DayOfYear(t: Date): int
    requires Valid(t)
  {
    MonthStart(MarchMonth(t)) + t.day - 1
  }

  function DayNumber(t: Date): int
    requires Valid(t) && t.year >= 1
  {
    YearStart(MarchYear(t)) + DayOfYear(t) - 719468
  }

  lemma DivStep(y: nat, k: nat)
    requires k == 4 || k == 100 || k == 400
    ensures (y + 1) / k == y / k + (if (y + 1) % k == 0 then 1 else 0)
  {
  }

  lemma CenturiesAreQuads(y: nat)
    ensures y % 400 == 0 ==> y % 100 == 0
    ensures y % 100 == 0 ==> y % 4 == 0
  {
    if y % 400 == 0 { assert y == 100 * (4 * (y / 400)); }
    if y % 100 == 0 { assert y == 4 * (25 * (y / 100)); }
  }

  lemma YearStep(y: nat)
    ensures YearStart(y + 1) == YearStart(y) + (if Leap(y + 1) then 366 else 365)
  {
    DivStep(y, 4);
    DivStep(y, 100);
    DivStep(y, 400);
    CenturiesAreQuads(y + 1);
  }

  lemma MonthStep(t: Date)
    requires Valid(t) && t.month != 2
    ensures MonthStart(MarchMonth(t)) + MonthLength(t.year, t.month) == MonthStart(MarchMonth(t) + 1)
    ensures var next := if t.month < 12 then Date(t.year, t.month + 1, 1) else Date(t.year + 1, 1, 1);
            MarchMonth(next) == MarchMonth(t) + 1 && MarchYear(next) == MarchYear(t)
  {
  }

  /** The next calendar day has the next number. */
  lemma TomorrowIsNext(t: Date)
    requires Valid(t) && t.year >= 1
    ensures Valid(Tomorrow(t)) && DayNumber(Tomorrow(t)) == DayNumber(t) + 1
  {
    if t.day < MonthLength(t.year, t.month) {
    } else if t.month == 2 {
      YearStep(MarchYear(t));
      assert MonthStart(11) == 337 && MonthStart(0) == 0;
    } else {
      MonthStep(t);
    }
  }

  // ------------------------------------------------------------ inverting the code

  /** Year of era from day of era, by century, quad and year of quad. */
  lemma YearOfEra(c: nat, a: nat, b: nat, doy: nat, doe: nat)
    requires c < 4 && a < 25 && b < 4
    requires doy < 365 || (doy == 365 && b == 3 && (a < 24 || c == 3))
    requires doe == 36524 * c + 1461 * a + 365 * b + doy
    ensures (doe - doe / 1460 + doe / 36524 - doe / 146096) / 365 == 100 * c + 4 * a + b
  {
    var e := if 24 * c + a + 365 * b + doy >= 1460 then 1 else 0;
    assert doe / 1460 == 25 * c + a + e;
    var last := if doe == 146096 then 1 else 0;
    assert doe / 36524 == c + last;
    assert doe / 146096 == last;
  }

  lemma MonthOfYear(doy: nat, mp: nat)
    requires mp < 12 && MonthStart(mp) <= doy && doy <= 365 && (mp < 11 ==> doy < MonthStart(mp + 1))
    ensures (5 * doy + 2) / 153 == mp
  {
  }

  lemma Remainder(x: nat, k: nat, q: nat, r: nat)
    requires k == 4 || k == 100 || k == 400
    requires x == k * q + r && r < k
    ensures x / k == q && x % k == r
  {
  }

  /** Which years end with the leap day of a March-based year. */
  lemma LeapOfParts(y: nat, e: nat, c: nat, a: nat, b: nat)
    requires c < 4 && a < 25 && b < 4 && y == 400 * e + 100 * c + 4 * a + b
    ensures Leap(y + 1) <==> b == 3 && (a < 24 || c == 3)
  {
    if b < 3 {
      Remainder(y + 1, 4, 100 * e + 25 * c + a, b + 1);
      CenturiesAreQuads(y + 1);
    } else {
      Remainder(y + 1, 4, 100 * e + 25 * c + a + 1, 0);
      if a < 24 {
        Remainder(y + 1, 100, 4 * e + c, 4 * a + 4);
      } else if c < 3 {
        Remainder(y + 1, 100, 4 * e + c + 1, 0);
        Remainder(y + 1, 400, e, 100 * (c + 1));
      } else {
        Remainder(y + 1, 400, e + 1, 0);
      }
    }
  }

  /** A March-based year splits into era, century, quad and year of quad. */
  lemma SplitYear(y: nat, e: nat, c: nat, a: nat, b: nat)
    requires c < 4 && a < 25 && b < 4 && y == 400 * e + 100 * c + 4 * a + b
    ensures YearStart(y) == 146097 * e + 36524 * c + 1461 * a + 365 * b
    ensures Leap(y + 1) <==> b == 3 && (a < 24 || c == 3)
  {
    Remainder(y, 4, 100 * e + 25 * c + a, b);
    Remainder(y, 100, 4 * e + c, 4 * a + b);
    Remainder(y, 400, e, 100 * c + 4 * a + b);
    LeapOfParts(y, e, c, a, b);
  }

  /** A day of a March-based year lies in its month. */
  lemma DayInMonth(t: Date)
    requires Valid(t) && t.year >= 1
    ensures var mp, doy := MarchMonth(t), DayOfYear(t);
            && 0 <= mp < 12 && MonthStart(mp) <= doy && (mp < 11 ==> doy < MonthStart(mp + 1))
            && (doy < 365 || (doy == 365 && Leap(MarchYear(t) + 1)))
  {
    if t.month != 2 { MonthStep(t); }
  }

  lemma {:induction false} YearsAdvance(x: nat, y: nat)
    requires x <= y
    ensures YearStart(x) <= YearStart(y)
    decreases y - x
  {
    if x < y {
      YearStep(x);
      YearsAdvance(x + 1, y);
    }
  }

  lemma FromEpochOn(t: Date)
    requires Valid(t) && t.year >= 1970
    ensures DayNumber(t) >= 0
  {
    if MarchYear(t) >= 1970 {
      YearsAdvance(1970, MarchYear(t));
      assert YearStart(1970) == 719527;
    } else {
      assert YearStart(1969) == 719162;
    }
  }

  lemma YearParts(y: nat) returns (e: nat, c: nat, a: nat, b: nat)
    ensures c < 4 && a < 25 && b < 4 && y == 400 * e + 100 * c + 4 * a + b
  {
    e := y / 400;
    c := (y - 400 * e) / 100;
    a := (y - 400 * e - 100 * c) / 4;
    b := y - 400 * e - 100 * c - 4 * a;
  }

  /** The code reads back century, quad, year and month of an era. */
  lemma DecodesEra(e: nat, c: nat, a: nat, b: nat, doy: nat, mp: nat, doe: nat)
    requires c < 4 && a < 25 && b < 4 && mp < 12
    requires doy < 365 || (doy == 365 && b == 3 && (a < 24 || c == 3))
    requires MonthStart(mp) <= doy && (mp < 11 ==> doy < MonthStart(mp + 1))
    requires doe == 36524 * c + 1461 * a + 365 * b + doy
    ensures doe < 146097
    ensures var y := 400 * e + 100 * c + 4 * a + b;
            DateOfEra(e, doe) == Date(if mp >= 10 then y + 1 else y, if mp < 10 then mp + 3 else mp - 9,
                                      doy - MonthStart(mp) + 1)
  {
    YearOfEra(c, a, b, doy, doe);
    var yoe := 100 * c + 4 * a + b;
    assert yoe / 4 == 25 * c + a && yoe / 100 == c;
    assert doe - (365 * yoe + yoe / 4 - yoe / 100) == doy;
    MonthOfYear(doy, mp);
  }

  lemma EraOf(z: nat, e: nat, doe: nat)
    requires doe < 146097 && z == 146097 * e + doe
    ensures z / 146097 == e && z - z / 146097 * 146097 == doe
  {
  }

  /** The era and day of era of a valid date, from which the code finds the date. */
  lemma EraParts(t: Date) returns (e: nat, doe: nat)
    requires Valid(t) && t.year >= 1970
    ensures doe < 146097 && DayNumber(t) + 719468 == 146097 * e + doe && DateOfEra(e, doe) == t
  {
    DayInMonth(t);
    var c, a, b;
    e, c, a, b := YearParts(MarchYear(t));
    SplitYear(MarchYear(t), e, c, a, b);
    doe := 36524 * c + 1461 * a + 365 * b + DayOfYear(t);
    DecodesEra(e, c, a, b, DayOfYear(t), MarchMonth(t), doe);
  }

  /** The code inverts the day number of every valid date from the epoch on. */
  lemma InvertsDayNumber(t: Date)
    requires Valid(t) && t.year >= 1970
    ensures DayNumber(t) >= 0 && DaysToYmd(DayNumber(t)) == t
  {
    FromEpochOn(t);
    var e, doe := EraParts(t);
    EraOf(DayNumber(t) + 719468, e, doe);
  }

  // --------------------------------------------------------------- main results

  lemma {:induction false} CountedHasNumber(n: nat)
    ensures DayNumber(Counted(n)) == n
  {
    if n == 0 {
      assert YearStart(1969) == 719162 && MonthStart(10) == 306;
    } else {
      CountedHasNumber(n - 1);
      TomorrowIsNext(Counted(n - 1));
    }
  }

  /** The era arithmetic gives the date reached by counting days from the epoch. */
  lemma DaysToYmdCounts(n: nat)
    ensures DaysToYmd(n) == Counted(n)
    ensures Valid(DaysToYmd(n)) && DayNumber(DaysToYmd(n)) == n
    ensures DaysToYmd(n + 1) == Tomorrow(DaysToYmd(n))
  {
    CountedHasNumber(n);
    InvertsDayNumber(Counted(n));
    CountedHasNumber(n + 1);
    InvertsDayNumber(Counted(n + 1));
  }

  /** It is a bijection between day numbers and the valid dates from 1970-01-01 on. */
  lemma DaysToYmdIsABijection(t: Date, m: nat, n: nat)
    requires Valid(t) && t.year >= 1970
    ensures DayNumber(t) >= 0 && DaysToYmd(DayNumber(t)) == t
    ensures DaysToYmd(m) == DaysToYmd(n) ==> m == n
  {
    InvertsDayNumber(t);
    DaysToYmdCounts(m);
    DaysToYmdCounts(n);
  }

  lemma TomorrowIsLater(s: Date, t: Date)
    requires Valid(t) && (s == t || Before(s, t))
    ensures Before(s, Tomorrow(t))
  {
  }

  lemma {:induction false} CountingAdvances(m: nat, n: nat)
    requires m < n
    ensures Before(Counted(m), Counted(n))
    decreases n
  {
    if m < n - 1 { CountingAdvances(m, n - 1); }
    TomorrowIsLater(Counted(m), Counted(n - 1));
  }

  /** Later days are later dates. */
  lemma DaysToYmdIsMonotone(m: nat, n: nat)
    requires m < n
    ensures Before(DaysToYmd(m), DaysToYmd(n))
  {
    CountingAdvances(m, n);
    DaysToYmdCounts(m);
    DaysToYmdCounts(n);
  }
}
