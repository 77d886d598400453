/**
 * Day counts to `YYYY-MM-DD` partitions, in pure integer arithmetic.
 *
 * The calendar is defined here from its rules alone (`Next`), and the closed formula is proved
 * to walk it one day at a time.
 */
module Civil {
  import opened Text

  datatype Date = Date(year: int, month: int, day: int)

  // Python's `//` floors, and so does Dafny's `/` for a positive divisor.

  const ERA_DAYS := 146_097

  /** The era as the code computes it: the negative branch floors a second time. */
  function Era(z: int): int { if z >= 0 then z / ERA_DAYS else (z - 146_096) / ERA_DAYS }

  function YearOfEra(doe: int): int { (doe - doe / 1460 + doe / 36_524 - doe / 146_096) / 365 }

  /** The day of the era on which a year starting on 1 March begins. */
  function YearStart(yoe: int): int { 365 * yoe + yoe / 4 - yoe / 100 }

  /** The day of the year, counted from 1 March, on which the `mp`-th month begins. */
  function MonthStart(mp: int): int { (153 * mp + 2) / 5 }

  function MonthIndex(doy: int): int { (5 * doy + 2) / 153 }

  /** The date `doy` days after 1 March of `y`. */
  function FromMarch(y: int, doy: int): Date {
    var mp := MonthIndex(doy);
    var d := doy - MonthStart(mp) + 1;
    var m := if mp < 10 then mp + 3 else mp - 9;
    Date(if m <= 2 then y + 1 else y, m, d)
  }

  /** The date of the `doe`-th day of an era. */
  function FromEra(era: int, doe: int): Date {
    var yoe := YearOfEra(doe);
    FromMarch(yoe + era * 400, doe - YearStart(yoe))
  }

  function CivilFromDays(days: int): Date {
    var z := days + 719_468;
    var era := Era(z);
    FromEra(era, z - era * 146_097)
  }

  // ---------------------------------------------------------------------------------------
  // The Gregorian calendar by its rules
  // ---------------------------------------------------------------------------------------

  predicate IsLeap(y: int) { y % 4 == 0 && (y % 100 != 0 || y % 400 == 0) }

  function DaysInMonth(y: int, m: int): int {
    if m == 2 then (if IsLeap(y) then 29 else 28)
    else if m == 4 || m == 6 || m == 9 || m == 11 then 30
    else 31
  }

  predicate IsValid(t: Date) { 1 <= t.month <= 12 && 1 <= t.day <= DaysInMonth(t.year, t.month) }

  function Next(t: Date): Date {
    if t.day < DaysInMonth(t.year, t.month) then Date(t.year, t.month, t.day + 1)
    else if t.month < 12 then Date(t.year, t.month + 1, 1)
    else Date(t.year + 1, 1, 1)
  }

  /** The inverse formula: the day count of a date. */
  function DaysFromCivil(t: Date): int {
    var y := if t.month <= 2 then t.year - 1 else t.year;
    var mp := if t.month > 2 then t.month - 3 else t.month + 9;
    var yoe := y % 400;
    y / 400 * 146_097 + YearStart(yoe) + MonthStart(mp) + t.day - 1 - 719_468
  }

  // ---------------------------------------------------------------------------------------
  // Years and months
  // ---------------------------------------------------------------------------------------

  /**
   * A day of the era, split into centuries, four-year cycles, years and a remainder, where only
   * the last year of a cycle may have a 366th day, and a century's last cycle only in the fourth.
   */
  ghost predicate Splits(doe: int, c: int, q: int, y: int, r: int) {
    && doe == 36_524 * c + 1461 * q + 365 * y + r
    && 0 <= c <= 3 && 0 <= q <= 24 && 0 <= y <= 3 && 0 <= r <= 365
    && (r == 365 ==> y == 3 && (q < 24 || c == 3))
  }

  lemma SplitDay(doe: int) returns (c: int, q: int, y: int, r: int)
    requires 0 <= doe < ERA_DAYS
    ensures Splits(doe, c, q, y, r)
  {
    c := if doe / 36_524 > 3 then 3 else doe / 36_524;
    var inCentury := doe - 36_524 * c;
    q := inCentury / 1461;
    var inCycle := inCentury - 1461 * q;
    y := if inCycle / 365 > 3 then 3 else inCycle / 365;
    r := inCycle - 365 * y;
  }

  lemma SplitYearStart(c: int, q: int, y: int)
    requires 0 <= c <= 3 && 0 <= q <= 24 && 0 <= y <= 3
    ensures YearStart(100 * c + 4 * q + y) == 36_524 * c + 1461 * q + 365 * y
  {
    var yoe := 100 * c + 4 * q + y;
    assert yoe / 4 == 25 * c + q;
    assert yoe / 100 == c;
  }

  lemma SplitYear(doe: int, c: int, q: int, y: int, r: int)
    requires Splits(doe, c, q, y, r)
    ensures YearOfEra(doe) == 100 * c + 4 * q + y
    ensures doe - YearStart(YearOfEra(doe)) == r
  {
    var s := 365 * y + r;
    var t := (24 * c + q + s) / 1460;
    assert doe / 1460 == 25 * c + q + t;
    assert doe / 36_524 - doe / 146_096 == c;
    assert doe - doe / 1460 + c == 365 * (100 * c + 4 * q) + s - t;
    assert 365 * y <= s - t < 365 * (y + 1);
    SplitYearStart(c, q, y);
  }

  lemma MonthOfDay(doy: int)
    requires 0 <= doy <= 366
    ensures 0 <= MonthIndex(doy) <= 11
    ensures MonthStart(MonthIndex(doy)) <= doy < MonthStart(MonthIndex(doy) + 1)
  {
    var mp := MonthIndex(doy);
    assert 153 * mp <= 5 * doy + 2 < 153 * (mp + 1);
  }

  /** Only February, the eleventh month from March, has a length that the formula does not fix. */
  lemma MonthLength(y: int, mp: int)
    requires 0 <= mp <= 10
    ensures MonthStart(mp + 1) - MonthStart(mp) == DaysInMonth(y, if mp < 10 then mp + 3 else mp - 9)
  {
    if mp <= 5 {
      assert mp == 0 || mp == 1 || mp == 2 || mp == 3 || mp == 4 || mp == 5;
    } else {
      assert mp == 6 || mp == 7 || mp == 8 || mp == 9 || mp == 10;
    }
  }

  /** The year that ends in February of `yoe + 1` has a 366th day exactly when that year is leap. */
  lemma LeapSplit(era: int, c: int, q: int, y: int)
    requires 0 <= c <= 3 && 0 <= q <= 24 && 0 <= y <= 3
    ensures IsLeap(400 * era + 100 * c + 4 * q + y + 1) <==> y == 3 && (q < 24 || c == 3)
  {
    var g := 400 * era + 100 * c + 4 * q + y + 1;
    assert g == 4 * (100 * era + 25 * c + q) + (y + 1);
    assert g == 100 * (4 * era + c) + (4 * q + y + 1);
    assert g == 400 * era + (100 * c + 4 * q + y + 1);
  }

  // ---------------------------------------------------------------------------------------
  // Assembling a date
  // ---------------------------------------------------------------------------------------

  lemma FromMarchDays(y: int, doy: int)
    requires 0 <= doy <= 366
    ensures DaysFromCivil(FromMarch(y, doy)) == y / 400 * ERA_DAYS + YearStart(y % 400) + doy - 719_468
  {
    MonthOfDay(doy);
  }

  lemma FromMarchValid(y: int, doy: int)
    requires 0 <= doy <= 365 && (doy == 365 ==> IsLeap(y + 1))
    ensures IsValid(FromMarch(y, doy))
  {
    MonthOfDay(doy);
    var mp := MonthIndex(doy);
    if mp <= 10 { MonthLength(FromMarch(y, doy).year, mp); }
  }

  /** The day counts on which the era is computed correctly. */
  predicate EraExact(days: int) { days >= -719_468 || (days + 719_468) % ERA_DAYS == 146_096 }

  lemma EraIsFloor(z: int)
    ensures z >= 0 || z % ERA_DAYS == 146_096 ==> Era(z) == z / ERA_DAYS
    ensures !(z >= 0 || z % ERA_DAYS == 146_096) ==> Era(z) == z / ERA_DAYS - 1
  {
    if z < 0 {
      var e, doe := z / ERA_DAYS, z % ERA_DAYS;
      assert z - 146_096 == ERA_DAYS * (e - 1) + doe + 1;
    }
  }

  lemma FromEraSplits(era: int, doe: int, c: int, q: int, y: int, r: int)
    requires Splits(doe, c, q, y, r)
    ensures FromEra(era, doe) == FromMarch(400 * era + 100 * c + 4 * q + y, r)
  {
    SplitYear(doe, c, q, y, r);
  }

  lemma CivilSplits(days: int) returns (era: int, doe: int, c: int, q: int, y: int, r: int)
    requires EraExact(days)
    ensures days + 719_468 == era * ERA_DAYS + doe && Splits(doe, c, q, y, r)
    ensures CivilFromDays(days) == FromMarch(400 * era + 100 * c + 4 * q + y, r)
  {
    EraIsFloor(days + 719_468);
    era := (days + 719_468) / ERA_DAYS;
    doe := (days + 719_468) % ERA_DAYS;
    c, q, y, r := SplitDay(doe);
    FromEraSplits(era, doe, c, q, y, r);
  }

  lemma MarchYearSplits(era: int, c: int, q: int, y: int)
    requires 0 <= c <= 3 && 0 <= q <= 24 && 0 <= y <= 3
    ensures var year := 400 * era + 100 * c + 4 * q + y;
            year / 400 == era && year % 400 == 100 * c + 4 * q + y
  {
  }

  lemma SplitsValid(era: int, doe: int, c: int, q: int, y: int, r: int)
    requires Splits(doe, c, q, y, r)
    ensures IsValid(FromMarch(400 * era + 100 * c + 4 * q + y, r))
  {
    LeapSplit(era, c, q, y);
    FromMarchValid(400 * era + 100 * c + 4 * q + y, r);
  }

  lemma SplitsDays(era: int, doe: int, c: int, q: int, y: int, r: int)
    requires Splits(doe, c, q, y, r)
    ensures DaysFromCivil(FromMarch(400 * era + 100 * c + 4 * q + y, r)) == era * ERA_DAYS + doe - 719_468
  {
    hide DaysFromCivil, FromMarch, YearStart;
    FromMarchDays(400 * era + 100 * c + 4 * q + y, r);
    MarchYearSplits(era, c, q, y);
    SplitYearStart(c, q, y);
  }

  /** Where the era is right, every day yields a real date whose day count is that day. */
  lemma CivilCorrect(days: int)
    requires EraExact(days)
    ensures IsValid(CivilFromDays(days))
    ensures DaysFromCivil(CivilFromDays(days)) == days
  {
    var era, doe, c, q, y, r := CivilSplits(days);
    SplitsValid(era, doe, c, q, y, r);
    SplitsDays(era, doe, c, q, y, r);
  }

  // ---------------------------------------------------------------------------------------
  // The other direction, and the walk through the calendar
  // ---------------------------------------------------------------------------------------

  function MarchYear(t: Date): int { if t.month <= 2 then t.year - 1 else t.year }

  function MarchMonth(t: Date): int { if t.month > 2 then t.month - 3 else t.month + 9 }

  function MarchDay(t: Date): int { MonthStart(MarchMonth(t)) + t.day - 1 }

  lemma MonthIndexUnique(mp: int, doy: int)
    requires 0 <= mp <= 11 && MonthStart(mp) <= doy < MonthStart(mp + 1)
    ensures MonthIndex(doy) == mp
  {
  }

  lemma ValidIsFromMarch(t: Date)
    requires IsValid(t)
    ensures t == FromMarch(MarchYear(t), MarchDay(t))
    ensures 0 <= MarchDay(t) <= 365 && (MarchDay(t) == 365 ==> IsLeap(MarchYear(t) + 1))
  {
    var mp := MarchMonth(t);
    if mp <= 10 { MonthLength(t.year, mp); }
    MonthIndexUnique(mp, MarchDay(t));
    assert MonthStart(mp) <= 337;
  }

  lemma SplitMarchYear(y: int) returns (c: int, q: int, i: int)
    ensures 0 <= c <= 3 && 0 <= q <= 24 && 0 <= i <= 3
    ensures y % 400 == 100 * c + 4 * q + i
  {
    var yoe := y % 400;
    c := yoe / 100;
    q := yoe % 100 / 4;
    i := yoe % 4;
    assert yoe == 100 * c + yoe % 100 && yoe % 100 == 4 * q + yoe % 100 % 4;
    assert (100 * c + yoe % 100) % 4 == yoe % 100 % 4;
  }

  lemma SplitsUnique(doe: int, c: int, q: int, y: int, r: int, c': int, q': int, y': int, r': int)
    requires Splits(doe, c, q, y, r) && Splits(doe, c', q', y', r')
    ensures c == c' && q == q' && y == y' && r == r'
  {
    assert c == c';
    assert q == q';
  }

  /** A real date has parts, and they are those of its day count. */
  lemma DateSplits(t: Date) returns (era: int, doe: int, c: int, q: int, y: int, r: int)
    requires IsValid(t)
    ensures DaysFromCivil(t) == era * ERA_DAYS + doe - 719_468 && Splits(doe, c, q, y, r)
    ensures t == FromMarch(400 * era + 100 * c + 4 * q + y, r)
  {
    ValidIsFromMarch(t);
    era, r := MarchYear(t) / 400, MarchDay(t);
    c, q, y := SplitMarchYear(MarchYear(t));
    LeapSplit(era, c, q, y);
    doe := 36_524 * c + 1461 * q + 365 * y + r;
    SplitsDays(era, doe, c, q, y, r);
  }

  lemma EraUnique(z: int, era: int, doe: int, era': int, doe': int)
    requires z == era * ERA_DAYS + doe == era' * ERA_DAYS + doe'
    requires 0 <= doe < ERA_DAYS && 0 <= doe' < ERA_DAYS
    ensures era == era' && doe == doe'
  {
  }

  /** Every real date is the date of its own day count. */
  lemma CivilInverse(t: Date)
    requires IsValid(t) && EraExact(DaysFromCivil(t))
    ensures CivilFromDays(DaysFromCivil(t)) == t
  {
    var days := DaysFromCivil(t);
    var era, doe, c, q, y, r := DateSplits(t);
    var era', doe', c', q', y', r' := CivilSplits(days);
    EraUnique(days + 719_468, era, doe, era', doe');
    SplitsUnique(doe, c, q, y, r, c', q', y', r');
  }

  lemma YearStep(y: int)
    ensures (y + 1) / 400 * ERA_DAYS + YearStart((y + 1) % 400) ==
            y / 400 * ERA_DAYS + YearStart(y % 400) + if IsLeap(y + 1) then 366 else 365
  {
    var c, q, i := SplitMarchYear(y);
    LeapSplit(y / 400, c, q, i);
    SplitYearStart(c, q, i);
    assert y == 400 * (y / 400) + 100 * c + 4 * q + i;
    if y % 400 == 399 { EraEnds(y); } else { EraGoesOn(y); }
  }

  lemma EraEnds(y: int)
    requires y % 400 == 399
    ensures (y + 1) / 400 == y / 400 + 1 && (y + 1) % 400 == 0
  {
  }

  lemma EraGoesOn(y: int)
    requires y % 400 != 399
    ensures (y + 1) / 400 == y / 400 && (y + 1) % 400 == y % 400 + 1
  {
  }

  lemma NextDay(t: Date)
    requires IsValid(t)
    ensures IsValid(Next(t)) && DaysFromCivil(Next(t)) == DaysFromCivil(t) + 1
  {
    var mp := MarchMonth(t);
    if mp <= 10 {
      MonthLength(t.year, mp);
    } else if t.day == DaysInMonth(t.year, t.month) {
      YearStep(MarchYear(t));
    }
  }

  /** Consecutive day counts are consecutive dates, leap years and centuries included. */
  lemma CivilWalksTheCalendar(days: int)
    requires days >= -719_468
    ensures CivilFromDays(days + 1) == Next(CivilFromDays(days))
  {
    CivilCorrect(days);
    NextDay(CivilFromDays(days));
    CivilInverse(Next(CivilFromDays(days)));
  }

  // ---------------------------------------------------------------------------------------
  // Where the formula is wrong
  // ---------------------------------------------------------------------------------------

  lemma LateDivisions(e: int, c: int, q: int, y: int, r: int)
    requires e >= 1 && Splits(e, c, q, y, r)
    ensures var s := 365 * y + r;
            var late := e + 146_096;
            late - late / 1460 + late / 36_524 - late / 146_096 ==
            365 * (400 + 100 * c + 4 * q) + s - 1 - (24 * c + q + s + 96) / 1460
  {
    var late := e + 146_096;
    assert late / 1460 == 100 + 25 * c + q + (24 * c + q + 365 * y + r + 96) / 1460;
    assert late / 36_524 - late / 146_096 == 3 + c;
  }

  lemma LateYearStart(c: int, q: int, i: int)
    requires 0 <= c <= 3 && 0 <= q <= 24 && -1 <= i <= 3 && 0 <= 100 * c + 4 * q + i
    ensures YearStart(400 + 100 * c + 4 * q + i) == 146_096 + YearStart(100 * c + 4 * q + i)
  {
  }

  /** Read from the era before its own, a day lands in years 400 to 799, past the era's end. */
  lemma YearOfLateDay(e: int)
    requires 1 <= e <= 146_096
    ensures var yoe := YearOfEra(e + 146_096);
            && 400 <= yoe <= 799
            && 0 <= e + 146_096 - YearStart(yoe) <= 366
            && YearStart(yoe - 400) == YearStart(yoe) - 146_096
  {
    var c, q, y, r := SplitDay(e);
    LateDivisions(e, c, q, y, r);
    var s := 365 * y + r;
    var inCycle := (s - 1 - (24 * c + q + s + 96) / 1460) / 365;
    assert inCycle == y || (inCycle == y - 1 && r == 0);
    assert YearOfEra(e + 146_096) == 400 + 100 * c + 4 * q + inCycle;
    LateYearStart(c, q, inCycle);
    LateStart(c, q, y, r, inCycle);
  }

  lemma LateStart(c: int, q: int, y: int, r: int, i: int)
    requires Splits(36_524 * c + 1461 * q + 365 * y + r, c, q, y, r)
    requires i == y || (i == y - 1 && r == 0)
    requires 1 <= 36_524 * c + 1461 * q + 365 * y + r
    ensures 0 <= 100 * c + 4 * q + i <= 399
    ensures 0 <= 36_524 * c + 1461 * q + 365 * y + r - YearStart(100 * c + 4 * q + i) <= 366
  {
    SplitYearStart(c, q, y);
    var yoe := 100 * c + 4 * q + y;
    if i == y - 1 {
      YearStep(yoe - 1);
    }
  }

  /**
   * The formula is meant for the whole proleptic calendar. It is right exactly where the era is:
   * on every other day it names a date whose day count is one day late.
   */
  lemma CivilExactly(days: int)
    ensures DaysFromCivil(CivilFromDays(days)) == if EraExact(days) then days else days + 1
    ensures IsValid(CivilFromDays(days)) && DaysFromCivil(CivilFromDays(days)) == days <==> EraExact(days)
  {
    if EraExact(days) {
      CivilCorrect(days);
    } else {
      var z := days + 719_468;
      EraIsFloor(z);
      var e := z % ERA_DAYS + 1;
      LateDate(Era(z), e);
    }
  }

  lemma LateDate(era: int, e: int)
    requires 1 <= e <= 146_096
    ensures DaysFromCivil(FromEra(era, e + 146_096)) == (era + 1) * ERA_DAYS + e - 719_468
  {
    YearOfLateDay(e);
    var yoe := YearOfEra(e + 146_096);
    FromMarchDays(yoe + era * 400, e + 146_096 - YearStart(yoe));
    assert (yoe + era * 400) / 400 == era + 1 && (yoe + era * 400) % 400 == yoe - 400;
  }

  /** 28 February of the year 0 is reported as the 29th. */
  lemma CivilWrongBeforeYearZero()
    ensures CivilFromDays(-719_470) == Date(0, 2, 29)
    ensures DaysFromCivil(Date(0, 2, 28)) == -719_470
  {
    assert Era(-2) == -2;
    assert YearOfEra(292_192) == 799 && YearStart(799) == 291_827;
    assert FromMarch(-1, 365) == Date(0, 2, 29);
  }

  // ---------------------------------------------------------------------------------------
  // Partition strings
  // ---------------------------------------------------------------------------------------

  function Zeros(n: nat): (s: string)
    ensures |s| == n && forall i :: 0 <= i < |s| ==> s[i] == '0'
  {
    if n == 0 then "" else Zeros(n - 1) + "0"
  }

  /** `f"{n:0<width>d}"`, where the sign counts towards the width. */
  function Padded(n: int, width: nat): (s: string)
    ensures |s| >= width
  {
    if n < 0 then "-" + (var t := Decimal(-n); Zeros(if |t| + 1 < width then width - |t| - 1 else 0) + t)
    else var t := Decimal(n); Zeros(if |t| < width then width - |t| else 0) + t
  }

  function Render(t: Date): string {
    Padded(t.year, 4) + "-" + Padded(t.month, 2) + "-" + Padded(t.day, 2)
  }

  function DatePartition(epochSeconds: real): string {
    Render(CivilFromDays((epochSeconds / 86_400.0).Floor))
  }

  lemma {:induction false} ValueZeros(k: nat, s: string)
    ensures Value(Zeros(k) + s) == Value(s)
  {
    if s != "" {
      ValueZeros(k, s[..|s| - 1]);
      assert (Zeros(k) + s)[..k + |s| - 1] == Zeros(k) + s[..|s| - 1];
    } else if k > 0 {
      ValueZeros(k - 1, "");
      assert Zeros(k - 1) + "" == Zeros(k - 1);
      assert (Zeros(k) + "")[..k - 1] == Zeros(k - 1);
    }
  }

  lemma ValuePadded(n: int, width: nat)
    requires n >= 0
    ensures Value(Padded(n, width)) == n
    ensures '-' !in Padded(n, width)
  {
    ValueDecimal(n);
    ValueZeros(if |Decimal(n)| < width then width - |Decimal(n)| else 0, Decimal(n));
  }

  lemma TwoDigits(n: int)
    requires 0 <= n <= 99
    ensures |Padded(n, 2)| == 2
  {
    if n >= 10 { assert |Decimal(n / 10)| == 1; }
  }

  /** The date that a partition string names. */
  function Parse(s: string): Date
    requires |s| >= 6
  {
    Date(Value(s[..|s| - 6]), Value(s[|s| - 5..|s| - 3]), Value(s[|s| - 2..]))
  }

  lemma ParseFields(a: string, b: string, c: string)
    requires |b| == |c| == 2
    ensures Parse(a + "-" + b + "-" + c) == Date(Value(a), Value(b), Value(c))
  {
    var s := a + "-" + b + "-" + c;
    assert s[..|s| - 6] == a && s[|s| - 5..|s| - 3] == b && s[|s| - 2..] == c;
  }

  lemma ParseRender(t: Date)
    requires t.year >= 0 && IsValid(t)
    ensures |Render(t)| >= 6 && Parse(Render(t)) == t
  {
    var y, m, d := Padded(t.year, 4), Padded(t.month, 2), Padded(t.day, 2);
    TwoDigits(t.month);
    TwoDigits(t.day);
    ParseFields(y, m, d);
    ValuePadded(t.year, 4);
    ValuePadded(t.month, 2);
    ValuePadded(t.day, 2);
  }

  lemma CivilYearNonNegative(days: int)
    requires days >= -719_468
    ensures CivilFromDays(days).year >= 0
  {
    var era, doe, c, q, y, r := CivilSplits(days);
    MonthOfDay(r);
  }

  /** From year 0 on, two instants share a partition exactly when they fall on the same UTC day. */
  lemma PartitionPerDay(a: real, b: real)
    requires (a / 86_400.0).Floor >= -719_468 && (b / 86_400.0).Floor >= -719_468
    ensures DatePartition(a) == DatePartition(b) <==> (a / 86_400.0).Floor == (b / 86_400.0).Floor
  {
    var d, e := (a / 86_400.0).Floor, (b / 86_400.0).Floor;
    if DatePartition(a) == DatePartition(b) {
      CivilCorrect(d); CivilCorrect(e);
      CivilYearNonNegative(d); CivilYearNonNegative(e);
      ParseRender(CivilFromDays(d)); ParseRender(CivilFromDays(e));
    }
  }
}
