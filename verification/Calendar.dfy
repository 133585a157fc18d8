// The civil calendar: the closed form of days_to_ymd against the year and month loops.
module Calendar {
  import opened Division

  // ---- The calendar itself ----

  predicate IsLeap(y: nat) { (y % 4 == 0 && y % 100 != 0) || y % 400 == 0 }

  function YearLen(y: nat): nat { if IsLeap(y) then 366 else 365 }

  function MonthLen(y: nat, m: nat): nat
    requires 1 <= m <= 12
  {
    if m == 2 then (if IsLeap(y) then 29 else 28)
    else if m == 4 || m == 6 || m == 9 || m == 11 then 30
    else 31
  }

  datatype Date = Date(y: nat, m: nat, d: nat)
  {
    predicate Valid() { y >= 1970 && 1 <= m <= 12 && 1 <= d <= MonthLen(y, m) }
  }

  // Days from the epoch to the first of January of y, year by year.
  function YearStart(y: nat): nat
    requires y >= 1970
  {
    if y == 1970 then 0 else YearStart(y - 1) + YearLen(y - 1)
  }

  // Days from the first of January to the first of month m, month by month.
  function MonthStart(y: nat, m: nat): nat
    requires 1 <= m <= 13
    decreases m, y
  {
    if m == 1 then 0 else MonthStart(y, m - 1) + MonthLen(y, m - 1)
  }

  // The day number of a date.
  function DayNumber(t: Date): nat
    requires t.Valid()
  {
    YearStart(t.y) + MonthStart(t.y, t.m) + t.d - 1
  }

  predicate Earlier(a: Date, b: Date) { a.y < b.y || (a.y == b.y && (a.m < b.m || (a.m == b.m && a.d < b.d))) }

  lemma {:induction false} YearsAscend(a: nat, b: nat)
    requires 1970 <= a < b
    ensures YearStart(a) + YearLen(a) <= YearStart(b)
    decreases b
  {
    if a < b - 1 { YearsAscend(a, b - 1); }
  }

  lemma {:induction false} MonthsAscend(y: nat, a: nat, b: nat)
    requires 1 <= a < b <= 13
    ensures MonthStart(y, a) + MonthLen(y, a) <= MonthStart(y, b)
    decreases b
  {
    if a < b - 1 { MonthsAscend(y, a, b - 1); }
  }

  // The first days of the months, as offsets from the first of January.
  lemma MonthOffsets(y: nat)
    ensures var f := MonthLen(y, 2);
      && MonthStart(y, 1) == 0 && MonthStart(y, 2) == 31 && MonthStart(y, 3) == 31 + f && MonthStart(y, 4) == 62 + f
      && MonthStart(y, 5) == 92 + f && MonthStart(y, 6) == 123 + f
      && MonthStart(y, 7) == 153 + f && MonthStart(y, 8) == 184 + f
      && MonthStart(y, 9) == 215 + f && MonthStart(y, 10) == 245 + f
      && MonthStart(y, 11) == 276 + f && MonthStart(y, 12) == 306 + f
      && MonthStart(y, 13) == 337 + f
  {
    assert MonthStart(y, 2) == 31;
    assert MonthStart(y, 3) == 31 + MonthLen(y, 2);
    assert MonthStart(y, 4) == 62 + MonthLen(y, 2);
    assert MonthStart(y, 5) == 92 + MonthLen(y, 2);
    assert MonthStart(y, 6) == 123 + MonthLen(y, 2);
    assert MonthStart(y, 7) == 153 + MonthLen(y, 2);
    assert MonthStart(y, 8) == 184 + MonthLen(y, 2);
    assert MonthStart(y, 9) == 215 + MonthLen(y, 2);
    assert MonthStart(y, 10) == 245 + MonthLen(y, 2);
    assert MonthStart(y, 11) == 276 + MonthLen(y, 2);
    assert MonthStart(y, 12) == 306 + MonthLen(y, 2);
  }

  lemma YearIsTwelveMonths(y: nat)
    ensures MonthStart(y, 13) == YearLen(y)
  {
    MonthOffsets(y);
  }

  // Later dates have larger day numbers.
  lemma DaysAscend(a: Date, b: Date)
    requires a.Valid() && b.Valid() && Earlier(a, b)
    ensures DayNumber(a) < DayNumber(b)
  {
    if a.y < b.y {
      YearsAscend(a.y, b.y);
      YearIsTwelveMonths(a.y);
      MonthsAscend(a.y, a.m, 13);
    } else if a.m < b.m {
      MonthsAscend(a.y, a.m, b.m);
    }
  }

  // A day number names one date.
  lemma DateUnique(a: Date, b: Date)
    requires a.Valid() && b.Valid() && DayNumber(a) == DayNumber(b)
    ensures a == b
  {
    if Earlier(a, b) { DaysAscend(a, b); } else if Earlier(b, a) { DaysAscend(b, a); }
  }

  // ---- The closed form ----

  // Leap years in 1 .. n.
  function Leaps(n: nat): nat { n / 4 - n / 100 + n / 400 }

  lemma LeapsStep(n: nat)
    requires n > 0
    ensures Leaps(n) == Leaps(n - 1) + (if IsLeap(n) then 1 else 0)
  {
    Carry(n, 4);
    Carry(n, 100);
    Carry(n, 400);
    Hundreds(n);
  }

  lemma Hundreds(n: nat)
    ensures n % 400 == 0 ==> n % 100 == 0
    ensures n % 100 == 0 ==> n % 4 == 0
  {
    if n % 400 == 0 { Quotient(n, 100, 4 * (n / 400), 0); }
    if n % 100 == 0 { Quotient(n, 4, 25 * (n / 100), 0); }
  }

  lemma {:induction false} YearStartClosed(y: nat)
    requires y >= 1970
    ensures YearStart(y) == 365 * (y - 1970) + Leaps(y - 1) - 477
  {
    if y > 1970 {
      YearStartClosed(y - 1);
      LeapsStep(y - 1);
    }
  }

  // ---- days_to_ymd ----

  // The year of the 400-year era, counted from March, that holds day doe of the era.
  function YearOfEra(doe: nat): int { (doe - doe / 1460 + doe / 36524 - doe / 146096) / 365 }

  // The year counted from March, and the day in it.
  function MarchYear(days: nat): (int, int) {
    var z := days + 719468;
    var era := z / 146097;
    var doe := z - era * 146097;
    var yoe := YearOfEra(doe);
    (yoe + era * 400, doe - (365 * yoe + yoe / 4 - yoe / 100))
  }

  function DaysToYmd(days: nat): (int, int, int) {
    var (y, doy) := MarchYear(days);
    FromMarch(y, doy)
  }

  // Day doy of the year that begins on the first of March of y.
  function FromMarch(y: int, doy: int): (int, int, int) {
    var mp := (5 * doy + 2) / 153;
    var d := doy - (153 * mp + 2) / 5 + 1;
    var m := if mp < 10 then mp + 3 else mp - 9;
    (if m <= 2 then y + 1 else y, m, d)
  }

  // Day doe of the era as century, four-year cycle, year and day.
  datatype Split = Split(c: nat, q: nat, k: nat, u: nat)
  {
    ghost predicate Of(doe: nat) {
      && doe == 36524 * c + 1461 * q + 365 * k + u && c <= 3 && q <= 24 && k <= 3 && u <= 365
      && (u == 365 ==> k == 3 && (q < 24 || c == 3))
    }

    function Year(): nat { 100 * c + 4 * q + k }
  }

  lemma SplitDay(doe: nat) returns (s: Split)
    requires doe < 146097
    ensures s.Of(doe)
  {
    var c := if doe >= 109572 then 3 else doe / 36524;
    var r := doe - 36524 * c;
    var q := r / 1461;
    var t := r - 1461 * q;
    var k := if t >= 1095 then 3 else t / 365;
    s := Split(c, q, k, t - 365 * k);
  }

  // The two small divisions of the formula cancel except for the century.
  lemma CenturyTerm(doe: nat, s: Split)
    requires s.Of(doe)
    ensures doe / 36524 - doe / 146096 == s.c
  {
    if doe == 146096 {
    } else {
      Quotient(doe, 36524, s.c, doe - 36524 * s.c);
    }
  }

  lemma CycleTerm(doe: nat, s: Split)
    requires s.Of(doe)
    ensures var e := 25 * s.c + s.q - doe / 1460; (e == 0 || e == -1) && 0 <= s.u + e < 365
  {
    var x := 24 * s.c + s.q + 365 * s.k + s.u;
    assert doe == 1460 * (25 * s.c + s.q) + x;
    if x < 1460 { Quotient(doe, 1460, 25 * s.c + s.q, x); } else { Quotient(doe, 1460, 25 * s.c + s.q + 1, x - 1460); }
  }

  lemma YearOfEraIs(doe: nat, s: Split)
    requires s.Of(doe)
    ensures YearOfEra(doe) == s.Year()
  {
    CenturyTerm(doe, s);
    CycleTerm(doe, s);
    var e := 25 * s.c + s.q - doe / 1460;
    Quotient(doe - doe / 1460 + doe / 36524 - doe / 146096, 365, s.Year(), s.u + e);
  }

  lemma YearTerms(s: Split)
    requires s.c <= 3 && s.q <= 24 && s.k <= 3
    ensures s.Year() / 4 == 25 * s.c + s.q && s.Year() / 100 == s.c && s.Year() < 400
  {}

  // ---- Months counted from March ----

  // Days from the first of March to the first of the month `mp` months later.
  function MarchStart(mp: nat): nat
    requires mp <= 12
  {
    [0, 31, 61, 92, 122, 153, 184, 214, 245, 275, 306, 337, 367][mp]
  }

  lemma MarchFormula(mp: nat)
    requires mp <= 12
    ensures (153 * mp + 2) / 5 == MarchStart(mp)
  {}

  lemma MarchMonth(u: nat)
    requires u <= 365
    ensures var mp := (5 * u + 2) / 153; mp <= 11 && MarchStart(mp) <= u < MarchStart(mp + 1)
  {
    var mp := (5 * u + 2) / 153;
    MarchFormula(mp);
    MarchFormula(mp + 1);
  }

  // The same month in the calendar year.
  lemma MarchMonthStart(y: nat, mp: nat)
    requires mp <= 11
    ensures mp < 10 ==> MonthStart(y, mp + 3) == MarchStart(mp) + 31 + MonthLen(y, 2)
    ensures mp < 10 ==> MarchStart(mp + 1) == MarchStart(mp) + MonthLen(y, mp + 3)
    ensures mp >= 10 ==> MonthStart(y, mp - 9) == MarchStart(mp) - 306
    ensures mp == 10 ==> MarchStart(mp + 1) == MarchStart(mp) + MonthLen(y, 1)
  {
    MonthOffsets(y);
  }

  // Counting from March gives a date of the calendar with the right day number.
  lemma FromMarchIs(y: nat, u: nat)
    requires u <= 365 && (u == 365 ==> IsLeap(y + 1)) && y >= 1969 && (y == 1969 ==> u >= 306)
    ensures var (a, m, d) := FromMarch(y, u);
      && a >= 0 && m >= 0 && d >= 0 && Date(a, m, d).Valid()
      && DayNumber(Date(a, m, d)) == 365 * y + Leaps(y) + u - 719468
  {
    hide YearStart, MonthStart, MarchStart, Leaps;
    var mp := (5 * u + 2) / 153;
    MarchMonth(u);
    MarchFormula(mp);
    var a := if mp < 10 then y else y + 1;
    MarchMonthStart(a, mp);
    YearStartClosed(a);
    LeapsStep(y);
  }

  // ---- The closed form is right ----

  lemma LeapsOfEra(y: nat, era: nat)
    requires y < 400
    ensures Leaps(y + 400 * era) == Leaps(y) + 97 * era && Leaps(y) == y / 4 - y / 100
  {
    Quotient(y + 400 * era, 4, y / 4 + 100 * era, y % 4);
    Quotient(y + 400 * era, 100, y / 100 + 4 * era, y % 100);
    Quotient(y + 400 * era, 400, era, y);
  }

  // The last day of the year before March exists only in leap years.
  lemma LeapDay(s: Split, doe: nat, era: nat)
    requires s.Of(doe) && s.u == 365
    ensures IsLeap(s.Year() + 400 * era + 1)
  {
    var y := s.Year() + 400 * era + 1;
    Quotient(y, 4, 25 * s.c + s.q + 1 + 100 * era, 0);
    if s.q < 24 { Quotient(y, 100, s.c + 4 * era, 4 * s.q + 4); } else { Quotient(y, 400, era + 1, 0); }
  }

  // n days after the first of March of year 0 lie in year y, day u.
  ghost predicate Lies(n: nat, y: nat, u: nat) {
    n == 365 * y + Leaps(y) + u && u <= 365 && (u == 365 ==> IsLeap(y + 1))
  }

  // Day doe of an era lies in year yoe of the era, day u.
  ghost predicate LiesInEra(doe: nat, yoe: nat, u: nat) {
    YearOfEra(doe) == yoe && doe - (365 * yoe + yoe / 4 - yoe / 100) == u
  }

  lemma SplitInEra(doe: nat, s: Split)
    requires s.Of(doe)
    ensures LiesInEra(doe, s.Year(), s.u)
  {
    YearOfEraIs(doe, s);
    DayOfYear(doe, s);
  }

  lemma EraFacts(era: nat, doe: nat) returns (yoe: nat, u: nat)
    requires doe < 146097
    ensures LiesInEra(doe, yoe, u) && Lies(era * 146097 + doe, yoe + era * 400, u)
  {
    var s := SplitDay(doe);
    SplitInEra(doe, s);
    SplitLies(era, doe, s);
    yoe, u := s.Year(), s.u;
  }

  lemma SplitLies(era: nat, doe: nat, s: Split)
    requires s.Of(doe)
    ensures Lies(era * 146097 + doe, s.Year() + era * 400, s.u)
  {
    EraDay(era, doe, s);
    if s.u == 365 { LeapDay(s, doe, era); }
  }

  lemma MarchYearIs(days: nat, era: nat, doe: nat, yoe: nat, u: nat)
    requires era == (days + 719468) / 146097 && doe == days + 719468 - era * 146097
    requires LiesInEra(doe, yoe, u)
    ensures MarchYear(days) == (yoe + era * 400, u)
  {}

  lemma DayOfYear(doe: nat, s: Split)
    requires s.Of(doe)
    ensures doe - (365 * s.Year() + s.Year() / 4 - s.Year() / 100) == s.u
  {
    YearTerms(s);
  }

  lemma EraDay(era: nat, doe: nat, s: Split)
    requires s.Of(doe)
    ensures era * 146097 + doe == 365 * (s.Year() + era * 400) + Leaps(s.Year() + era * 400) + s.u
  {
    YearTerms(s);
    LeapsOfEra(s.Year(), era);
  }

  lemma AfterEpoch(y: nat, u: nat)
    requires 365 * y + Leaps(y) + u >= 719468 && u <= 365
    ensures y >= 1969 && (y == 1969 ==> u >= 306)
  {}

  lemma LiesIn(days: nat, y: nat, u: nat)
    requires Lies(days + 719468, y, u)
    ensures var (a, m, d) := FromMarch(y, u);
      a >= 0 && m >= 0 && d >= 0 && Date(a, m, d).Valid() && DayNumber(Date(a, m, d)) == days
  {
    AfterEpoch(y, u);
    FromMarchIs(y, u);
  }

  // days_to_ymd returns the date with that day number.
  lemma DaysToYmdIs(days: nat)
    ensures var (y, m, d) := DaysToYmd(days);
      y >= 0 && m >= 0 && d >= 0 && Date(y, m, d).Valid() && DayNumber(Date(y, m, d)) == days
  {
    EraOf(days);
    DaysToYmdOf(days, (days + 719468) / 146097, (days + 719468) % 146097);
  }

  lemma EraOf(days: nat)
    ensures (days + 719468) / 146097 * 146097 + (days + 719468) % 146097 == days + 719468
  {}

  lemma DaysToYmdOf(days: nat, era: nat, doe: nat)
    requires days + 719468 == era * 146097 + doe && doe < 146097 && era == (days + 719468) / 146097
    ensures var (y, m, d) := DaysToYmd(days);
      y >= 0 && m >= 0 && d >= 0 && Date(y, m, d).Valid() && DayNumber(Date(y, m, d)) == days
  {
    hide Lies, LiesInEra, MarchYear, FromMarch, DayNumber;
    var yoe, u := EraFacts(era, doe);
    MarchYearIs(days, era, doe, yoe, u);
    LiesIn(days, yoe + era * 400, u);
  }

  function Ymd(days: nat): Date {
    DaysToYmdIs(days);
    var (y, m, d) := DaysToYmd(days);
    Date(y, m, d)
  }

  // Later days are later dates, and only those.
  lemma YmdMonotone(a: nat, b: nat)
    ensures a < b <==> Earlier(Ymd(a), Ymd(b))
  {
    DaysToYmdIs(a);
    DaysToYmdIs(b);
    if Earlier(Ymd(a), Ymd(b)) { DaysAscend(Ymd(a), Ymd(b)); }
    else if Earlier(Ymd(b), Ymd(a)) { DaysAscend(Ymd(b), Ymd(a)); }
  }

  // ---- The loops ----

  // Step the month while a whole month is left.
  method MonthByLoop(year: nat, days: nat) returns (month: nat, day: nat)
    requires days < YearLen(year)
    ensures 1 <= month <= 12 && 1 <= day <= MonthLen(year, month) && MonthStart(year, month) + day - 1 == days
  {
    YearIsTwelveMonths(year);
    var left: nat := days;
    month := 1;
    while month <= 12 && left >= MonthLen(year, month)
      invariant 1 <= month <= 13 && MonthStart(year, month) + left == days
    {
      left := left - MonthLen(year, month);
      month := month + 1;
    }
    day := left + 1;
  }

  // Step the year while a whole year is left, then the month: the closed form computes the same date.
  method YmdByLoops(days: nat) returns (t: Date)
    ensures t == Ymd(days)
  {
    var left: nat, year: nat := days, 1970;
    while left >= YearLen(year)
      invariant year >= 1970 && YearStart(year) + left == days
      decreases left
    {
      left := left - YearLen(year);
      year := year + 1;
    }
    var month, day := MonthByLoop(year, left);
    t := Date(year, month, day);
    DaysToYmdIs(days);
    DateUnique(t, Ymd(days));
  }
}
