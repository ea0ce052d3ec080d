/** Broken-down times and the difference of two of them. */
module Calendar {

  /** The year counts from 1900, as in the C library; the day is the day of the year. */
  datatype Tm = Tm(year: int, yday: int, hour: int, min: int, sec: int)

  const TM_YEAR_BASE: int := 1900

  predicate IsLeap(y: int) {
    y % 4 == 0 && (y % 100 != 0 || y % 400 == 0)
  }

  function YearDays(tmYear: int): int {
    if IsLeap(tmYear + TM_YEAR_BASE) then 366 else 365
  }

  predicate Normalized(t: Tm) {
    0 <= t.yday < YearDays(t.year) && 0 <= t.hour < 24 && 0 <= t.min < 60 && 0 <= t.sec < 60
  }

  // ----- the operators of C

  /** Division rounds toward zero. */
  function CDiv(a: int, b: int): int
    requires b > 0
  {
    if a >= 0 then a / b else -(-a / b)
  }

  function CMod(a: int, b: int): int
    requires b > 0
  {
    a - b * CDiv(a, b)
  }

  /** The right shift by two of a two's complement integer. */
  function Shr2(a: int): int {
    a / 4
  }

  /** The bitwise and with three. */
  function And3(a: int): int {
    a % 4
  }

  function Truth(b: bool): int {
    if b then 1 else 0
  }

  /** The three terms of a year's leap days. */
  function Quadrennials(tmYear: int): int {
    Shr2(tmYear) + Shr2(TM_YEAR_BASE) - Truth(And3(tmYear) == 0)
  }

  function Centuries(tmYear: int): int {
    var a4 := Quadrennials(tmYear);
    CDiv(a4, 25) - Truth(CMod(a4, 25) < 0)
  }

  function Cycles(tmYear: int): int {
    Shr2(Centuries(tmYear))
  }

  function InterveningLeapDays(y: int, z: int): int {
    (Quadrennials(y) - Quadrennials(z)) - (Centuries(y) - Centuries(z)) + (Cycles(y) - Cycles(z))
  }

  function TmDiff(a: Tm, b: Tm): int {
    var years := a.year - b.year;
    var days := 365 * years + InterveningLeapDays(a.year, b.year) + (a.yday - b.yday);
    60 * (60 * (24 * days + (a.hour - b.hour)) + (a.min - b.min)) + (a.sec - b.sec)
  }

  // ----- the reference: a clock that ticks

  /** One second later. */
  function Tick(t: Tm): Tm {
    if t.sec < 59 then t.(sec := t.sec + 1)
    else if t.min < 59 then t.(sec := 0, min := t.min + 1)
    else if t.hour < 23 then t.(sec := 0, min := 0, hour := t.hour + 1)
    else if t.yday < YearDays(t.year) - 1 then Tm(t.year, t.yday + 1, 0, 0, 0)
    else Tm(t.year + 1, 0, 0, 0, 0)
  }

  function Ticks(n: nat, t: Tm): Tm {
    if n == 0 then t else Tick(Ticks(n - 1, t))
  }

  // ----- seconds on a line

  /** Leap years before a year, up to a constant. */
  function LeapsBefore(y: int): int {
    (y - 1) / 4 - (y - 1) / 100 + (y - 1) / 400
  }

  function DaysBefore(tmYear: int): int {
    365 * tmYear + LeapsBefore(tmYear + TM_YEAR_BASE)
  }

  /** A linear time scale, also for times that are not normalised. */
  function Seconds(t: Tm): int {
    86400 * (DaysBefore(t.year) + t.yday) + 3600 * t.hour + 60 * t.min + t.sec
  }

  /** The leap year terms computed with shifts and truncating divisions are floors. */
  lemma LeapTerms(tmYear: int)
    ensures var y := tmYear + TM_YEAR_BASE - 1;
      Quadrennials(tmYear) == y / 4 && Centuries(tmYear) == y / 100 && Cycles(tmYear) == y / 400
    ensures LeapTerm(tmYear) == LeapsBefore(tmYear + TM_YEAR_BASE)
  {
    var y := tmYear + TM_YEAR_BASE - 1;
    assert Quadrennials(tmYear) == y / 4;
    FloorOfTruncated(y / 4);
    assert y / 4 / 25 == y / 100 && y / 100 / 4 == y / 400;
  }

  lemma FloorOfTruncated(a: int)
    ensures CDiv(a, 25) - Truth(CMod(a, 25) < 0) == a / 25
  {
    if a < 0 {
      var q, r := -a / 25, -a % 25;
      assert -a == 25 * q + r;
    }
  }

  /** The difference is a difference on the line, whatever the two times. */
  lemma TmDiffIsLinear(a: Tm, b: Tm)
    ensures TmDiff(a, b) == Seconds(a) - Seconds(b)
  {
    TmDiffUnfolded(a, b);
    LeapTerms(a.year);
    LeapTerms(b.year);
    AssembledIsLinear(a, b, LeapTerm(a.year), LeapTerm(b.year));
    SecondsUnfolded(a, LeapTerm(a.year));
    SecondsUnfolded(b, LeapTerm(b.year));
  }

  lemma SecondsUnfolded(t: Tm, leaps: int)
    requires leaps == LeapsBefore(t.year + TM_YEAR_BASE)
    ensures Seconds(t) == 86400 * (365 * t.year + leaps + t.yday) + 3600 * t.hour + 60 * t.min + t.sec
  {
  }

  lemma TmDiffUnfolded(a: Tm, b: Tm)
    ensures TmDiff(a, b) == Assembled(a, b, LeapTerm(a.year) - LeapTerm(b.year))
  {
    LeapDaysSplit(a.year, b.year);
    assert TmDiff(a, b) == Assembled(a, b, InterveningLeapDays(a.year, b.year));
  }

  lemma LeapDaysSplit(y: int, z: int)
    ensures InterveningLeapDays(y, z) == LeapTerm(y) - LeapTerm(z)
  {
    SumsSplit(Quadrennials(y), Quadrennials(z), Centuries(y), Centuries(z), Cycles(y), Cycles(z));
  }

  lemma SumsSplit(a4: int, b4: int, a100: int, b100: int, a400: int, b400: int)
    ensures (a4 - b4) - (a100 - b100) + (a400 - b400) == (a4 - a100 + a400) - (b4 - b100 + b400)
  {
  }

  function LeapTerm(tmYear: int): int {
    Quadrennials(tmYear) - Centuries(tmYear) + Cycles(tmYear)
  }

  function Assembled(a: Tm, b: Tm, leaps: int): int {
    60 * (60 * (24 * (365 * (a.year - b.year) + leaps + (a.yday - b.yday)) + (a.hour - b.hour)) + (a.min - b.min)) +
      (a.sec - b.sec)
  }

  lemma AssembledIsLinear(a: Tm, b: Tm, la: int, lb: int)
    ensures Assembled(a, b, la - lb) ==
      (86400 * (365 * a.year + la + a.yday) + 3600 * a.hour + 60 * a.min + a.sec)
      - (86400 * (365 * b.year + lb + b.yday) + 3600 * b.hour + 60 * b.min + b.sec)
  {
  }

  lemma YearEnds(tmYear: int)
    ensures DaysBefore(tmYear + 1) == DaysBefore(tmYear) + YearDays(tmYear)
  {
    var y := tmYear + TM_YEAR_BASE;
    QuotientsStep(y);
    Multiples(y);
  }

  lemma QuotientsStep(y: int)
    ensures y / 4 == (y - 1) / 4 + Truth(y % 4 == 0)
    ensures y / 100 == (y - 1) / 100 + Truth(y % 100 == 0)
    ensures y / 400 == (y - 1) / 400 + Truth(y % 400 == 0)
  {
  }

  lemma Multiples(y: int)
    ensures y % 100 == 0 ==> y % 4 == 0
    ensures y % 400 == 0 ==> y % 100 == 0
  {
  }

  lemma TickIsOneSecond(t: Tm)
    requires Normalized(t)
    ensures Normalized(Tick(t)) && Seconds(Tick(t)) == Seconds(t) + 1
  {
    YearEnds(t.year);
  }

  lemma {:induction false} TicksCount(n: nat, t: Tm)
    requires Normalized(t)
    ensures Normalized(Ticks(n, t)) && Seconds(Ticks(n, t)) == Seconds(t) + n
  {
    if n > 0 {
      TicksCount(n - 1, t);
      TickIsOneSecond(Ticks(n - 1, t));
    }
  }

  lemma {:induction false} YearsApart(y: int, z: int)
    requires y < z
    ensures DaysBefore(y) + YearDays(y) <= DaysBefore(z)
    decreases z - y
  {
    YearEnds(y);
    if y + 1 < z {
      YearsApart(y + 1, z);
    }
  }

  /** A point of the line is at most one normalised time. */
  lemma SecondsInjective(a: Tm, b: Tm)
    requires Normalized(a) && Normalized(b) && Seconds(a) == Seconds(b)
    ensures a == b
  {
    var da, db := DaysBefore(a.year) + a.yday, DaysBefore(b.year) + b.yday;
    var sa, sb := 3600 * a.hour + 60 * a.min + a.sec, 3600 * b.hour + 60 * b.min + b.sec;
    assert 0 <= sa < 86400 && 0 <= sb < 86400;
    assert da == db && sa == sb;
    if a.year < b.year {
      YearsApart(a.year, b.year);
    } else if b.year < a.year {
      YearsApart(b.year, a.year);
    }
  }

  /** The difference counts the ticks of the calendar between two normalised times, in all years. */
  lemma TmDiffCountsTicks(a: Tm, b: Tm, n: nat)
    requires Normalized(a) && Normalized(b)
    ensures TmDiff(a, b) == n <==> Ticks(n, b) == a
  {
    TmDiffIsLinear(a, b);
    TicksCount(n, b);
    if TmDiff(a, b) == n {
      SecondsInjective(Ticks(n, b), a);
    }
  }

  /** Seconds Since the Epoch as given in section 4.16 of POSIX.1-2017 Base Definitions. */
  function PosixSeconds(t: Tm): int {
    t.sec + t.min * 60 + t.hour * 3600 + t.yday * 86400
    + (t.year - 70) * 31536000 + CDiv(t.year - 69, 4) * 86400
    - CDiv(t.year - 1, 100) * 86400 + CDiv(t.year + 299, 400) * 86400
  }

  lemma TmDiffIsPosix(a: Tm, b: Tm)
    requires a.year >= 70 && b.year >= 70
    ensures TmDiff(a, b) == PosixSeconds(a) - PosixSeconds(b)
  {
    TmDiffIsLinear(a, b);
    PosixIsLinear(a);
    PosixIsLinear(b);
  }

  lemma PosixIsLinear(t: Tm)
    requires t.year >= 70
    ensures PosixSeconds(t) == Seconds(t) - Seconds(Tm(70, 0, 0, 0, 0))
  {
    var y := t.year + TM_YEAR_BASE - 1;
    assert y / 4 == (t.year - 69) / 4 + 492;
    assert y / 100 == (t.year - 1) / 100 + 19;
    assert y / 400 == (t.year + 299) / 400 + 4;
  }

  predicate FitsInt(x: int) {
    -0x8000_0000 <= x < 0x8000_0000
  }

  /** What is computed from one year. */
  predicate YearTermsFit(tmYear: int) {
    var a4 := Quadrennials(tmYear);
    && FitsInt(Shr2(tmYear) + Shr2(TM_YEAR_BASE)) && FitsInt(a4) && FitsInt(CDiv(a4, 25)) && FitsInt(CMod(a4, 25))
    && FitsInt(Centuries(tmYear)) && FitsInt(Cycles(tmYear))
  }

  /** The differences of the terms of two years, and their sum from the left. */
  predicate LeapDifferencesFit(y: int, z: int) {
    var d4, d100, d400 := Quadrennials(y) - Quadrennials(z), Centuries(y) - Centuries(z), Cycles(y) - Cycles(z);
    FitsInt(d4) && FitsInt(d100) && FitsInt(d400) && FitsInt(d4 - d100) && FitsInt(d4 - d100 + d400)
  }

  /** The results of the arithmetic operations, from the days outwards. */
  predicate IntermediatesFit(a: Tm, b: Tm, leaps: int) {
    var days := 365 * (a.year - b.year) + leaps + (a.yday - b.yday);
    var hours := 24 * days + (a.hour - b.hour);
    var minutes := 60 * hours + (a.min - b.min);
    && FitsInt(a.year - b.year) && FitsInt(leaps) && FitsInt(365 * (a.year - b.year))
    && FitsInt(365 * (a.year - b.year) + leaps) && FitsInt(a.yday - b.yday) && FitsInt(days)
    && FitsInt(24 * days) && FitsInt(a.hour - b.hour) && FitsInt(hours)
    && FitsInt(60 * hours) && FitsInt(a.min - b.min) && FitsInt(minutes)
    && FitsInt(60 * minutes) && FitsInt(a.sec - b.sec) && FitsInt(Assembled(a, b, leaps))
  }

  /** No intermediate result leaves the range of an int as long as the years are ints that differ by at
      most 67. */
  lemma TmDiffFits(a: Tm, b: Tm)
    requires Normalized(a) && Normalized(b) && -67 <= a.year - b.year <= 67 && FitsInt(a.year) && FitsInt(b.year)
    ensures YearTermsFit(a.year) && YearTermsFit(b.year) && LeapDifferencesFit(a.year, b.year)
    ensures IntermediatesFit(a, b, LeapTerm(a.year) - LeapTerm(b.year))
    ensures TmDiff(a, b) == Assembled(a, b, LeapTerm(a.year) - LeapTerm(b.year))
  {
    TmDiffUnfolded(a, b);
    LeapTerms(a.year);
    LeapTerms(b.year);
    YearFits(a.year);
    YearFits(b.year);
    LeapsClose(a.year + TM_YEAR_BASE, b.year + TM_YEAR_BASE);
    AssembledFits(a, b, LeapTerm(a.year) - LeapTerm(b.year));
  }

  lemma YearFits(tmYear: int)
    requires FitsInt(tmYear)
    ensures YearTermsFit(tmYear)
  {
    LeapTerms(tmYear);
  }

  lemma AssembledFits(a: Tm, b: Tm, leaps: int)
    requires Normalized(a) && Normalized(b) && -67 <= a.year - b.year <= 67 && -19 <= leaps <= 19
    ensures IntermediatesFit(a, b, leaps)
  {
  }

  lemma LeapsClose(y: int, z: int)
    requires -67 <= y - z <= 67
    ensures -17 <= (y - 1) / 4 - (z - 1) / 4 <= 17 && -1 <= (y - 1) / 100 - (z - 1) / 100 <= 1
    ensures -1 <= (y - 1) / 400 - (z - 1) / 400 <= 1
    ensures -19 <= LeapsBefore(y) - LeapsBefore(z) <= 19
  {
  }

  // ----- normalisation

  function NormalDay(year: int, yday: int): (int, int)
    decreases if yday < 0 then 366 - yday else yday
  {
    if yday < 0 then NormalDay(year - 1, yday + YearDays(year - 1))
    else if yday >= YearDays(year) then NormalDay(year + 1, yday - YearDays(year))
    else (year, yday)
  }

  lemma {:induction false} NormalDaySame(year: int, yday: int)
    ensures var (y, d) := NormalDay(year, yday);
      0 <= d < YearDays(y) && DaysBefore(y) + d == DaysBefore(year) + yday
    decreases if yday < 0 then 366 - yday else yday
  {
    if yday < 0 {
      YearEnds(year - 1);
      NormalDaySame(year - 1, yday + YearDays(year - 1));
    } else if yday >= YearDays(year) {
      YearEnds(year);
      NormalDaySame(year + 1, yday - YearDays(year));
    }
  }

  /** What mktime leaves in its argument. */
  function Normal(t: Tm): Tm {
    var clock := 3600 * t.hour + 60 * t.min + t.sec;
    var (y, d) := NormalDay(t.year, t.yday + clock / 86400);
    Tm(y, d, clock % 86400 / 3600, clock % 3600 / 60, clock % 60)
  }

  lemma NormalSame(t: Tm)
    ensures Normalized(Normal(t)) && Seconds(Normal(t)) == Seconds(t)
  {
    var clock := 3600 * t.hour + 60 * t.min + t.sec;
    NormalDaySame(t.year, t.yday + clock / 86400);
    SplitClock(clock);
  }

  lemma SplitClock(clock: int)
    ensures 0 <= clock % 86400 / 3600 < 24 && 0 <= clock % 3600 / 60 < 60
    ensures 86400 * (clock / 86400) + 3600 * (clock % 86400 / 3600) + 60 * (clock % 3600 / 60) + clock % 60 == clock
  {
    var days, rest := clock / 86400, clock % 86400;
    var hours, seconds := rest / 3600, rest % 3600;
    WholeHours(24 * days + hours, seconds);
    WholeMinutes(60 * (24 * days + hours) + seconds / 60, seconds % 60);
  }

  lemma WholeHours(hours: int, rest: nat)
    requires rest < 3600
    ensures (3600 * hours + rest) % 3600 == rest
  {
  }

  lemma WholeMinutes(minutes: int, rest: nat)
    requires rest < 60
    ensures (60 * minutes + rest) % 60 == rest
  {
  }

  /** Seconds since 1970-01-01 00:00:00 UTC. */
  function Epoch(t: Tm): int {
    Seconds(t) - Seconds(Tm(70, 0, 0, 0, 0))
  }

  lemma EpochIsPosix(t: Tm)
    requires t.year >= 70
    ensures Epoch(t) == PosixSeconds(t)
  {
    PosixIsLinear(t);
  }

  /** The clock shows a time when it has ticked so often since the start of 1970. */
  lemma EpochCountsTicks(t: Tm, n: nat)
    requires Normalized(t)
    ensures Epoch(t) == n <==> Ticks(n, Tm(70, 0, 0, 0, 0)) == t
  {
    var start := Tm(70, 0, 0, 0, 0);
    TicksCount(n, start);
    if Epoch(t) == n {
      SecondsInjective(Ticks(n, start), t);
    }
  }

  /** The clock shows whole multiples of five minutes at multiples of 300 seconds, before 1970 as well. */
  lemma FiveMinutes(t: Tm)
    requires Normalized(t)
    ensures Epoch(t) % 300 == 0 <==> t.sec == 0 && t.min % 5 == 0
  {
    var days := DaysBefore(t.year) + t.yday - DaysBefore(70);
    assert Epoch(t) == 300 * (288 * days + 12 * t.hour) + (60 * t.min + t.sec);
    RestOfMultiple(288 * days + 12 * t.hour, 60 * t.min + t.sec);
    WholeFives(t.min, t.sec);
  }

  lemma RestOfMultiple(k: int, rest: nat)
    ensures (300 * k + rest) % 300 == rest % 300
  {
  }

  lemma WholeFives(min: nat, sec: nat)
    requires sec < 60
    ensures (60 * min + sec) % 300 == 0 <==> sec == 0 && min % 5 == 0
  {
    var fives, rest := min / 5, min % 5;
    assert 60 * min + sec == 300 * fives + (60 * rest + sec);
    RestOfMultiple(fives, 60 * rest + sec);
  }
}
