/**
  Julian day numbers (julian.hpp): closed formulas that count days one by one, within 32 bits.
*/
module Julian {
  import opened Calendar

  datatype Day = Day(y: int, m: int, d: int)

  predicate IsDate(a: Day) {
    1 <= a.m <= 12 && 1 <= a.d <= MonthDays(a.y, a.m)
  }

  const FIRST_DAY: Day := Day(-4713, 11, 24)
  const MAX_YEAR: int := 5874898

  /** Not before the first day. */
  predicate NotBeforeFirst(a: Day) {
    a.y > -4713 || (a.y == -4713 && (a.m > 11 || (a.m == 11 && a.d >= 24)))
  }

  /** `IS_VALID_JULIAN` */
  predicate IsValidJulian(a: Day) {
    NotBeforeFirst(a) && a.y < MAX_YEAR
  }

  // ----- counting -----

  function Tomorrow(a: Day): Day {
    if a.d < MonthDays(a.y, a.m) then Day(a.y, a.m, a.d + 1)
    else if a.m < 12 then Day(a.y, a.m + 1, 1)
    else Day(a.y + 1, 1, 1)
  }

  /** The date n days after the first one. */
  function DateOfDay(n: nat): Day {
    if n == 0 then FIRST_DAY else Tomorrow(DateOfDay(n - 1))
  }

  // ----- the formula, in years that begin in March -----

  function MarchYear(a: Day): int {
    if a.m > 2 then a.y + 4800 else a.y + 4799
  }

  /** The number of its month: March is 4, February 15. */
  function MarchMonth(a: Day): int {
    if a.m > 2 then a.m + 1 else a.m + 13
  }

  function DaysBeforeMonth(m: int): int {
    7834 * m / 256
  }

  function DaysBeforeYear(y: int): int {
    365 * y + y / 4 - y / 100 + y / 400
  }

  function DayNumber(a: Day): int {
    DaysBeforeYear(MarchYear(a)) - 32167 + DaysBeforeMonth(MarchMonth(a)) + a.d
  }

  lemma Div4(n: int, q: int, r: int)
    requires n == 4 * q + r && 0 <= r < 4
    ensures n / 4 == q && n % 4 == r
  {
  }

  lemma Div100(n: int, q: int, r: int)
    requires n == 100 * q + r && 0 <= r < 100
    ensures n / 100 == q && n % 100 == r
  {
  }

  lemma Div400(n: int, q: int, r: int)
    requires n == 400 * q + r && 0 <= r < 400
    ensures n / 400 == q && n % 400 == r
  {
  }

  lemma Div1461(n: int, q: int, r: int)
    requires n == 1461 * q + r && 0 <= r < 1461
    ensures n / 1461 == q && n % 1461 == r
  {
  }

  lemma Div146097(n: int, q: int, r: int)
    requires n == 146097 * q + r && 0 <= r < 146097
    ensures n / 146097 == q && n % 146097 == r
  {
  }

  /** A year number in digits: quadricentennials, centuries, quadrennials and years. */
  datatype YearDigits = YearDigits(q: int, c: int, t: int, u: int)

  function Digits(y: int): YearDigits {
    YearDigits(y / 400, y % 400 / 100, y % 400 % 100 / 4, y % 400 % 100 % 4)
  }

  predicate DigitsOk(g: YearDigits) {
    0 <= g.c < 4 && 0 <= g.t < 25 && 0 <= g.u < 4
  }

  function YearOf(g: YearDigits): int {
    400 * g.q + 100 * g.c + 4 * g.t + g.u
  }

  lemma DigitsOfYear(y: int)
    ensures DigitsOk(Digits(y)) && YearOf(Digits(y)) == y
  {
    var r := y % 400;
    assert y == 400 * (y / 400) + r;
    assert r == 100 * (r / 100) + r % 100;
  }

  lemma DaysBeforeDigits(g: YearDigits)
    requires DigitsOk(g)
    ensures DaysBeforeYear(YearOf(g)) == 146097 * g.q + 36524 * g.c + 1461 * g.t + 365 * g.u
  {
    var y := YearOf(g);
    Div4(y, 100 * g.q + 25 * g.c + g.t, g.u);
    Div100(y, 4 * g.q + g.c, 4 * g.t + g.u);
    Div400(y, g.q, 100 * g.c + 4 * g.t + g.u);
  }

  lemma LeapDigits(g: YearDigits)
    requires DigitsOk(g)
    ensures LeapYear(YearOf(g) + 1) <==> g.u == 3 && (g.t == 24 ==> g.c == 3)
  {
    var y := YearOf(g) + 1;
    if g.u < 3 {
      Div4(y, 100 * g.q + 25 * g.c + g.t, g.u + 1);
    } else {
      Div4(y, 100 * g.q + 25 * g.c + g.t + 1, 0);
      if g.t < 24 {
        Div100(y, 4 * g.q + g.c, 4 * g.t + 4);
      } else {
        Div100(y, 4 * g.q + g.c + 1, 0);
        if g.c < 3 {
          Div400(y, g.q, 100 * g.c + 100);
        } else {
          Div400(y, g.q + 1, 0);
        }
      }
    }
  }

  lemma NextYear(y: int)
    ensures DaysBeforeYear(y) == DaysBeforeYear(y - 1) + if LeapYear(y) then 366 else 365
  {
    var g := Digits(y - 1);
    DigitsOfYear(y - 1);
    DaysBeforeDigits(g);
    LeapDigits(g);
    var h := if g.u < 3 then g.(u := g.u + 1) else if g.t < 24 then g.(u := 0, t := g.t + 1)
             else if g.c < 3 then g.(u := 0, t := 0, c := g.c + 1) else YearDigits(g.q + 1, 0, 0, 0);
    assert YearOf(h) == y;
    DaysBeforeDigits(h);
  }

  lemma LeapPeriod(y: int)
    ensures LeapYear(y + 4800) == LeapYear(y)
  {
    var g := Digits(y - 1);
    DigitsOfYear(y - 1);
    LeapDigits(g);
    LeapDigits(g.(q := g.q + 12));
  }

  /** The lengths of all months but February are in the factor 7834 / 256. */
  lemma MonthLength(m: int)
    requires 1 <= m <= 12 && m != 2
    ensures var k := if m > 2 then m + 1 else m + 13;
            DaysBeforeMonth(k + 1) - DaysBeforeMonth(k) == MonthDays(0, m)
    ensures forall y :: MonthDays(y, m) == MonthDays(0, m)
  {
  }

  lemma AfterFebruary(a: Day)
    requires IsDate(a) && a.m == 2 && a.d == MonthDays(a.y, 2)
    ensures DayNumber(Day(a.y, 3, 1)) == DayNumber(a) + 1
  {
    NextYear(a.y + 4800);
    LeapPeriod(a.y);
  }

  /** From each date to the next the formula grows by one. */
  lemma TomorrowIsNext(a: Day)
    requires IsDate(a)
    ensures IsDate(Tomorrow(a)) && DayNumber(Tomorrow(a)) == DayNumber(a) + 1
  {
    if a.d == MonthDays(a.y, a.m) {
      if a.m == 2 {
        AfterFebruary(a);
      } else {
        MonthLength(a.m);
      }
    }
  }

  lemma {:induction false} DayNumberCounts(n: nat)
    ensures IsDate(DateOfDay(n)) && DayNumber(DateOfDay(n)) == n
  {
    if n > 0 {
      DayNumberCounts(n - 1);
      TomorrowIsNext(DateOfDay(n - 1));
    }
  }

  // ----- taking the formula apart -----

  /** The day in a year that begins in March, from 0. */
  function MarchDay(a: Day): int {
    DaysBeforeMonth(MarchMonth(a)) + a.d - 123
  }

  lemma MarchDayRange(a: Day)
    requires IsDate(a)
    ensures 0 <= MarchDay(a) <= 365 && (MarchDay(a) == 365 ==> LeapYear(MarchYear(a) + 1))
    ensures MarchDay(a) >= 306 <==> a.m <= 2
  {
    LeapPeriod(a.y);
  }

  /** First division: by the days of 400 years. */
  lemma Quadricentennial(g: YearDigits, doy: int)
    requires DigitsOk(g) && g.q >= 0 && 0 <= doy <= 365 && (doy == 365 ==> g.u == 3 && (g.t == 24 ==> g.c == 3))
    ensures var e := 1461 * g.t + 365 * g.u + doy;
            && 0 <= e <= 36524 && 0 <= 36524 * g.c + e < 146097
            && (146097 * g.q + (36524 * g.c + e)) / 146097 == g.q
            && ((36524 * g.c + e) * 4 + 3) / 146097 == g.c
  {
    var e := 1461 * g.t + 365 * g.u + doy;
    assert 0 <= e <= 36524 && (e == 36524 ==> g.c == 3);
    Div146097(146097 * g.q + (36524 * g.c + e), g.q, 36524 * g.c + e);
    Div146097((36524 * g.c + e) * 4 + 3, g.c, 4 * e + 3 - g.c);
  }

  /** Second division: by the days of four years, of which January and February of the first belong to the year before. */
  lemma Quadrennial(g: YearDigits, doy: int)
    requires DigitsOk(g) && 0 <= doy <= 365 && (doy == 365 ==> g.u == 3)
    ensures var f := 365 * g.u + doy + 60;
            var k := 100 * g.q + 25 * g.c + g.t;
            var j := 146100 * g.q + 36525 * g.c + 1461 * g.t + f;
            if f < 1461 then j / 1461 == k && j - j / 1461 * 1461 == f else j / 1461 == k + 1 && j - j / 1461 * 1461 == f - 1461
  {
    var f := 365 * g.u + doy + 60;
    var k := 100 * g.q + 25 * g.c + g.t;
    var j := 146100 * g.q + 36525 * g.c + 1461 * g.t + f;
    if f < 1461 { Div1461(j, k, f); } else { Div1461(j, k + 1, f - 1461); }
  }

  /** The year within its four years, and the day within its March year. */
  lemma YearAndDay(u: int, doy: int)
    requires 0 <= u < 4 && 0 <= doy <= 365 && (doy == 365 ==> u == 3)
    ensures var f := 365 * u + doy + 60; var rem := if f < 1461 then f else f - 1461;
            && rem * 4 / 1461 == (if doy < 306 then u else if u < 3 then u + 1 else 0)
            && (if rem * 4 / 1461 != 0 then (rem + 305) % 365 else (rem + 306) % 366) == doy
            && (f >= 1461 <==> u == 3 && doy >= 306)
  {
  }

  /** The month from the day within the March year. */
  lemma MonthOfDay(a: Day)
    requires IsDate(a)
    ensures (MarchDay(a) + 123) * 2141 / 65536 == MarchMonth(a)
    ensures (MarchMonth(a) + 10) % 12 + 1 == a.m
  {
  }

  lemma MarchYearPositive(a: Day)
    requires IsDate(a)
    ensures DayNumber(a) >= 0 ==> MarchYear(a) >= 0
    ensures NotBeforeFirst(a) ==> MarchYear(a) >= 0
  {
    MarchDayRange(a);
  }

  /** Where the digits of a date show up in its day number. */
  lemma DayNumberDigits(a: Day)
    requires IsDate(a) && MarchYear(a) >= 0
    ensures var g := Digits(MarchYear(a));
            && DigitsOk(g) && g.q >= 0 && MarchYear(a) == YearOf(g)
            && DayNumber(a) + 32044 == 146097 * g.q + 36524 * g.c + 1461 * g.t + 365 * g.u + MarchDay(a)
    ensures MarchDay(a) == 365 ==> var g := Digits(MarchYear(a)); g.u == 3 && (g.t == 24 ==> g.c == 3)
  {
    DigitsOfYear(MarchYear(a));
    DaysBeforeDigits(Digits(MarchYear(a)));
    LeapDigits(Digits(MarchYear(a)));
    MarchDayRange(a);
  }

  /** The two first divisions of `j2date`: the day in four years that begin in January, and how many such have passed. */
  function Quadrennials(jd: int): int {
    var n := jd + 32044;
    var q := n / 146097;
    var c := ((n - q * 146097) * 4 + 3) / 146097;
    n + 60 + q * 3 + c
  }

  /** The rest of it: day `rem` of the four years that begin after k times four years. */
  function DayOfQuadrennium(k: int, rem: int): Day {
    var y := rem * 4 / 1461;
    var x := (if y != 0 then (rem + 305) % 365 else (rem + 306) % 366) + 123;
    var m := x * 2141 / 65536;
    Day(y + k * 4 - 4800, (m + 10) % 12 + 1, x - 7834 * m / 256)
  }

  function InverseDay(j: int): Day {
    DayOfQuadrennium(j / 1461, j - j / 1461 * 1461)
  }

  lemma QuadrennialsOfDay(a: Day)
    requires IsDate(a) && MarchYear(a) >= 0
    ensures var g := Digits(MarchYear(a));
            Quadrennials(DayNumber(a)) == 146100 * g.q + 36525 * g.c + 1461 * g.t + (365 * g.u + MarchDay(a) + 60)
  {
    var g, doy, n := Digits(MarchYear(a)), MarchDay(a), DayNumber(a) + 32044;
    MarchDayRange(a);
    DayNumberDigits(a);
    Quadricentennial(g, doy);
    var r := 36524 * g.c + (1461 * g.t + 365 * g.u + doy);
    assert n == 146097 * g.q + r && n - g.q * 146097 == r;
  }

  lemma InverseOfQuadrennials(a: Day, g: YearDigits)
    requires IsDate(a) && DigitsOk(g) && g.q >= 0 && MarchYear(a) == YearOf(g) && (MarchDay(a) == 365 ==> g.u == 3)
    ensures InverseDay(146100 * g.q + 36525 * g.c + 1461 * g.t + (365 * g.u + MarchDay(a) + 60)) == a
  {
    MarchDayRange(a);
    Quadrennial(g, MarchDay(a));
    DayFromQuadrennium(a, 100 * g.q + 25 * g.c + g.t, g.u);
  }

  lemma DayFromQuadrennium(a: Day, k: int, u: int)
    requires IsDate(a) && 0 <= u < 4 && MarchYear(a) == 4 * k + u && (MarchDay(a) == 365 ==> u == 3)
    ensures var f := 365 * u + MarchDay(a) + 60;
            (if f < 1461 then DayOfQuadrennium(k, f) else DayOfQuadrennium(k + 1, f - 1461)) == a
  {
    MarchDayRange(a);
    YearAndDay(u, MarchDay(a));
    MonthOfDay(a);
  }

  /** The computation takes a date back from its day number. */
  lemma InverseOfDayNumber(a: Day)
    requires IsDate(a) && MarchYear(a) >= 0
    ensures InverseDay(Quadrennials(DayNumber(a))) == a
  {
    DayNumberDigits(a);
    QuadrennialsOfDay(a);
    InverseOfQuadrennials(a, Digits(MarchYear(a)));
  }

  /** Every date from the first one on is met by counting, at its day number; so dates and day numbers correspond one to one. */
  lemma CountingMeetsEveryDate(a: Day)
    requires IsDate(a) && NotBeforeFirst(a)
    ensures DayNumber(a) >= 0 && DateOfDay(DayNumber(a)) == a
  {
    MarchYearPositive(a);
    assert DayNumber(a) >= 0;
    DayNumberCounts(DayNumber(a));
    var b := DateOfDay(DayNumber(a));
    MarchYearPositive(b);
    InverseOfDayNumber(a);
    InverseOfDayNumber(b);
  }

  // ----- the code, in 32 bits -----

  newtype int32 = x: int | -0x8000_0000 <= x < 0x8000_0000

  /** For the dates that `IS_VALID_JULIAN` accepts no step leaves 32 bits, and the result counts the days from the first one. */
  method Date2J(year: int32, month: int32, day: int32) returns (julian: int32)
    requires var a := Day(year as int, month as int, day as int); IsDate(a) && IsValidJulian(a)
    ensures 0 <= julian && DateOfDay(julian as int) == Day(year as int, month as int, day as int)
  {
    ghost var a := Day(year as int, month as int, day as int);
    CountingMeetsEveryDate(a);
    MarchYearPositive(a);
    var y, m, d := year, month, day;
    if m > 2 {
      m := m + 1;
      y := y + 4800;
    } else {
      m := m + 13;
      y := y + 4799;
    }
    var century := y / 100;
    julian := y * 365 - 32167;
    julian := julian + (y / 4 - century + century / 4);
    julian := julian + (7834 * m / 256 + d);
    assert julian as int == DayNumber(a) by {
      assert y as int / 100 / 4 == y as int / 400;
    }
  }

  /** A 32 bit unsigned variable. */
  function Wrap(n: int): nat {
    n % 0x1_0000_0000
  }

  lemma Small(n: int)
    requires 0 <= n < 0x1_0000_0000
    ensures Wrap(n) == n
  {
  }

  lemma DivRange(n: nat)
    ensures 0 <= n - n / 146097 * 146097 < 146097 && 0 <= n - n / 1461 * 1461 < 1461
    ensures n / 146097 <= n && n / 1461 <= n
  {
  }

  /** The first half of `j2date`. */
  method ToQuadrennials(jd: int32) returns (julian: nat)
    ensures jd >= 0 ==> julian == Quadrennials(jd as int) < 0x1_0000_0000
  {
    julian := Wrap(jd as int);
    julian := Wrap(julian + 32044);
    if jd >= 0 {
      Small(jd as int);
      Small(jd as int + 32044);
    }
    DivRange(julian);
    var quad := julian / 146097;
    Small((julian - quad * 146097) * 4 + 3);
    var extra := Wrap((julian - quad * 146097) * 4 + 3);
    if jd >= 0 {
      assert quad <= 14700 && extra / 146097 <= 3;
      Small(julian + 60 + quad * 3 + extra / 146097);
    }
    julian := Wrap(julian + 60 + quad * 3 + extra / 146097);
  }

  /** For every day number that is not negative the result is the date reached by counting that many days. */
  method J2Date(jd: int32) returns (year: int, month: int, day: int)
    ensures jd >= 0 ==> Day(year, month, day) == DateOfDay(jd as int)
  {
    var julian := ToQuadrennials(jd);
    ghost var j := julian;
    DivRange(julian);
    var quad := julian / 1461;
    julian := julian - quad * 1461;
    Small(julian * 4);
    var y: int := Wrap(julian * 4) / 1461;
    julian := (if y != 0 then (julian + 305) % 365 else (julian + 306) % 366) + 123;
    y := y + quad * 4;
    year := y - 4800;
    quad := julian * 2141 / 65536;
    day := julian - 7834 * quad / 256;
    month := (quad + 10) % 12 + 1;
    assert Day(year, month, day) == InverseDay(j);
    if jd >= 0 {
      DayNumberCounts(jd as int);
      MarchYearPositive(DateOfDay(jd as int));
      InverseOfDayNumber(DateOfDay(jd as int));
    }
  }

  lemma FirstAndEpoch()
    ensures DayNumber(FIRST_DAY) == 0
    ensures DayNumber(Day(2000, 1, 1)) == 2451545
  {
  }
}
