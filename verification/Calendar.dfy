/** The proleptic Gregorian calendar behind chrono's DateTime<Utc>: instants are nanoseconds
    since 0000-01-01T00:00:00Z, civil date-times are what gets printed. */
module Calendar {
  import opened Text

  const SECOND := 1_000_000_000
  const DAY := 86_400 * SECOND
  /** Days in one 400-year cycle. */
  const CYCLE := 146_097

  datatype Civil = Civil(year: int, month: nat, day: nat, hour: nat, minute: nat, second: nat, nano: nat)

  predicate Leap(y: int) { y % 4 == 0 && (y % 100 != 0 || y % 400 == 0) }

  function MonthDays(leap: bool, m: nat): nat {
    if m == 2 then (if leap then 29 else 28)
    else if m == 4 || m == 6 || m == 9 || m == 11 then 30
    else 31
  }

  /** Days of the year before month `m`; month 13 gives the length of the year. */
  function MonthStart(leap: bool, m: nat): (d: nat)
    requires 1 <= m <= 13
    ensures m == 13 ==> d == if leap then 366 else 365
  {
    var feb := if leap then 1 else 0;
    if m == 1 then 0 else if m == 2 then 31
    else feb + [59, 90, 120, 151, 181, 212, 243, 273, 304, 334, 365][m - 3]
  }

  /** How many multiples of `d` lie in [0, y), negative when `y` is. */
  function MultiplesBefore(y: int, d: int): int
    requires d > 1
  {
    (y + d - 1) / d
  }

  /** Days before 1 January of year `y`, for any year. */
  function YearStart(y: int): int {
    365 * y + MultiplesBefore(y, 4) - MultiplesBefore(y, 100) + MultiplesBefore(y, 400)
  }

  predicate Valid(c: Civil) {
    && 1 <= c.month <= 12 && 1 <= c.day <= MonthDays(Leap(c.year), c.month)
    && c.hour < 24 && c.minute < 60 && c.second < 60 && c.nano < SECOND
  }

  function DayNumber(c: Civil): int
    requires Valid(c)
  {
    YearStart(c.year) + MonthStart(Leap(c.year), c.month) + c.day - 1
  }

  function NanoOfDay(c: Civil): nat {
    ((c.hour * 60 + c.minute) * 60 + c.second) * SECOND + c.nano
  }

  /** The instant `rest` nanoseconds into the day numbered `day`. */
  function Join(day: int, rest: int): int {
    day * DAY + rest
  }

  function Instant(c: Civil): int
    requires Valid(c)
  {
    Join(DayNumber(c), NanoOfDay(c))
  }

  /** The first instant of year `y`. */
  function YearInstant(y: int): int {
    Join(YearStart(y), 0)
  }

  // ---------------------------------------------------------------- from instants to civil time

  lemma NextMultiple(y: int, d: int)
    requires d > 1
    ensures MultiplesBefore(y + 1, d) == MultiplesBefore(y, d) + if y % d == 0 then 1 else 0
  {
    var q, r := y / d, y % d;
    assert y == d * q + r && d * (q + 1) == d * q + d;
    DivUnique(y + d, d, q + 1, r);
    if r == 0 { DivUnique(y + d - 1, d, q, d - 1); } else { DivUnique(y + d - 1, d, q + 1, r - 1); }
  }

  lemma CenturiesAreEven(y: int)
    ensures y % 400 == 0 ==> y % 100 == 0
    ensures y % 100 == 0 ==> y % 4 == 0
  {
  }

  lemma YearLength(y: int)
    ensures YearStart(y + 1) == YearStart(y) + MonthStart(Leap(y), 13)
  {
    NextMultiple(y, 4);
    NextMultiple(y, 100);
    NextMultiple(y, 400);
    CenturiesAreEven(y);
  }

  lemma CycleStart(c: int)
    ensures YearStart(400 * c) == CYCLE * c
  {
    var y := 400 * c;
    DivUnique(y + 3, 4, 100 * c, 3);
    DivUnique(y + 99, 100, 4 * c, 99);
    DivUnique(y + 399, 400, c, 399);
  }

  function YearFrom(day: int, y: int, end: int): (r: int)
    requires y < end && YearStart(y) <= day < YearStart(end)
    ensures YearStart(r) <= day < YearStart(r + 1)
    decreases end - y
  {
    if day < YearStart(y + 1) then y else YearFrom(day, y + 1, end)
  }

  function YearOf(day: int): (r: int)
    ensures YearStart(r) <= day < YearStart(r + 1)
  {
    var c := day / CYCLE;
    CycleStart(c);
    CycleStart(c + 1);
    YearFrom(day, 400 * c, 400 * (c + 1))
  }

  function MonthFrom(leap: bool, d: nat, m: nat): (r: nat)
    requires 1 <= m <= 12 && MonthStart(leap, m) <= d < MonthStart(leap, 13)
    ensures m <= r <= 12 && MonthStart(leap, r) <= d < MonthStart(leap, r + 1)
    decreases 13 - m
  {
    if d < MonthStart(leap, m + 1) then m else MonthFrom(leap, d, m + 1)
  }

  lemma TimeOfDay(rest: nat)
    requires rest < DAY
    ensures var s := rest / SECOND;
            && s < 86_400
            && rest == ((s / 3600 * 60 + s / 60 % 60) * 60 + s % 60) * SECOND + rest % SECOND
  {
  }

  /** Midnight of the day numbered `day`. */
  function DateOf(day: int): (c: Civil)
    ensures Valid(c) && NanoOfDay(c) == 0
    ensures DayNumber(c) == day
  {
    var y := YearOf(day);
    YearLength(y);
    var d := day - YearStart(y);
    var m := MonthFrom(Leap(y), d, 1);
    Civil(y, m, d - MonthStart(Leap(y), m) + 1, 0, 0, 0, 0)
  }

  /** The same day, `rest` nanoseconds after midnight. */
  function AtTime(date: Civil, rest: nat): (c: Civil)
    requires Valid(date) && rest < DAY
    ensures Valid(c) && NanoOfDay(c) == rest
    ensures DayNumber(c) == DayNumber(date)
  {
    TimeOfDay(rest);
    var s := rest / SECOND;
    date.(hour := s / 3600, minute := s / 60 % 60, second := s % 60, nano := rest % SECOND)
  }

  function SplitDay(n: int): (p: (int, nat))
    ensures p.1 < DAY && Join(p.0, p.1) == n
  {
    (n / DAY, n % DAY)
  }

  function ToCivil(n: int): (c: Civil)
    ensures Valid(c)
    ensures Instant(c) == n
  {
    var (day, rest) := SplitDay(n);
    AtTime(DateOf(day), rest)
  }

  // ---------------------------------------------------------------- order

  /** Civil time read left to right: the first differing field decides. */
  predicate Earlier(a: Civil, b: Civil) {
    if a.year != b.year then a.year < b.year
    else if a.month != b.month then a.month < b.month
    else if a.day != b.day then a.day < b.day
    else if a.hour != b.hour then a.hour < b.hour
    else if a.minute != b.minute then a.minute < b.minute
    else if a.second != b.second then a.second < b.second
    else a.nano < b.nano
  }

  lemma {:induction false} YearStartGrows(y: int, z: int)
    requires y <= z
    ensures YearStart(y) <= YearStart(z)
    decreases z - y
  {
  }

  lemma DayInYear(c: Civil)
    requires Valid(c)
    ensures YearStart(c.year) <= DayNumber(c) < YearStart(c.year + 1)
  {
    YearLength(c.year);
  }

  lemma EarlierDay(a: Civil, b: Civil)
    requires Valid(a) && Valid(b)
    requires a.year < b.year || (a.year == b.year && (a.month < b.month || (a.month == b.month && a.day < b.day)))
    ensures DayNumber(a) < DayNumber(b)
  {
    if a.year < b.year {
      DayInYear(a);
      DayInYear(b);
      YearStartGrows(a.year + 1, b.year);
    }
  }

  lemma WithinDay(c: Civil)
    requires Valid(c)
    ensures NanoOfDay(c) < DAY
  {
  }

  lemma EarlierTime(a: Civil, b: Civil)
    requires Valid(a) && Valid(b) && Earlier(a, b)
    requires a.year == b.year && a.month == b.month && a.day == b.day
    ensures NanoOfDay(a) < NanoOfDay(b)
  {
  }

  lemma DaysDecide(d: int, rest: nat, e: int, rest': nat)
    requires d < e && rest < DAY
    ensures Join(d, rest) < Join(e, rest')
  {
  }

  lemma EarlierInstant(a: Civil, b: Civil)
    requires Valid(a) && Valid(b) && Earlier(a, b)
    ensures Instant(a) < Instant(b)
  {
    if a.year == b.year && a.month == b.month && a.day == b.day {
      EarlierTime(a, b);
    } else {
      EarlierDay(a, b);
      WithinDay(a);
      DaysDecide(DayNumber(a), NanoOfDay(a), DayNumber(b), NanoOfDay(b));
    }
  }

  /** Civil order is chronological order. */
  lemma CivilOrder(m: int, n: int)
    ensures Earlier(ToCivil(m), ToCivil(n)) <==> m < n
  {
    var a, b := ToCivil(m), ToCivil(n);
    if Earlier(a, b) {
      EarlierInstant(a, b);
    } else if a != b {
      assert Earlier(b, a);
      EarlierInstant(b, a);
    }
  }

  /** A civil date-time denotes one instant and an instant prints as one civil date-time. */
  lemma CivilOfInstant(c: Civil)
    requires Valid(c)
    ensures ToCivil(Instant(c)) == c
  {
    var d := ToCivil(Instant(c));
    if Earlier(c, d) { EarlierInstant(c, d); } else if c != d {
      assert Earlier(d, c);
      EarlierInstant(d, c);
    }
  }
}
