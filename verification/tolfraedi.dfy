/**
  Opening-based statistics of the staff dashboard (public/js/pages/staff/tolfraedi.js).

  An opening ("opnun") is a day on which a center was open and recorded a
  positive attendance count. The page collects the openings of the school year
  so far, month by month from September, sorts them by date, and shows the
  latest count, the sums of the last 5 and last 10 openings with their changes
  against the windows before them, a line chart, and bar charts by school and
  by grade.

  Dates are abstract, totally ordered integer keys; the current year, month
  and instant are parameters; the calendar endpoint is a function parameter.
*/
module Tolfraedi {
  import opened JsSemantics
  import opened Sequences
  import opened BarChart

  /** One collected opening day: its date, the centre's count that day and the weekday. */
  datatype Opening = Opening(date: int, count: int, weekdayName: string)

  /** One day of the `calendarMonth` reply: `{date, weekdayName, centers: {<id>: {count}}}`. */
  datatype Day = Day(date: int, weekdayName: string, centers: map<string, int>)

  datatype YearMonth = YearMonth(year: int, month: int)

  function OpeningCount(o: Opening): int { o.count }

  function OpeningDate(o: Opening): int { o.date }

  // ---------------------------------------------------------------------------
  // The months of the school year so far
  // ---------------------------------------------------------------------------

  /** The school year starts in September of this year, or of last year before September:
      the latest September that is not after the current month. */
  function StartYear(currentYear: int, currentMonth: int): (y: int)
    requires 1 <= currentMonth <= 12
    ensures 0 <= MonthIndex(YearMonth(currentYear, currentMonth)) - MonthIndex(YearMonth(y, 9)) < 12
  {
    if currentMonth >= 9 then currentYear else currentYear - 1
  }

  /** Months counted from January of year 0; consecutive months get consecutive numbers. */
  function MonthIndex(ym: YearMonth): int
  {
    12 * ym.year + ym.month - 1
  }

  lemma MonthIndexInjective(a: YearMonth, b: YearMonth)
    requires 1 <= a.month <= 12 && 1 <= b.month <= 12
    requires MonthIndex(a) == MonthIndex(b)
    ensures a == b
  {
  }

  /** The calendar month after `ym`: the month number goes up by one, and after December
      the year goes up and the month starts again at January. */
  function NextMonth(ym: YearMonth): (r: YearMonth)
    requires 1 <= ym.month <= 12
    ensures 1 <= r.month <= 12
    ensures MonthIndex(r) == MonthIndex(ym) + 1
  {
    if ym.month + 1 > 12 then YearMonth(ym.year + 1, 1) else YearMonth(ym.year, ym.month + 1)
  }

  /** `count` consecutive months starting at `ym`. */
  function MonthsFrom(ym: YearMonth, count: nat): (r: seq<YearMonth>)
    requires 1 <= ym.month <= 12
    ensures |r| == count
    ensures forall k :: 0 <= k < count ==> 1 <= r[k].month <= 12 && MonthIndex(r[k]) == MonthIndex(ym) + k
    decreases count
  {
    if count == 0 then [] else [ym] + MonthsFrom(NextMonth(ym), count - 1)
  }

  /** The months `fetchAllOpenings` asks the calendar for, in order. */
  function SchoolYearMonths(currentYear: int, currentMonth: int): (r: seq<YearMonth>)
    requires 1 <= currentMonth <= 12
    ensures var start := YearMonth(StartYear(currentYear, currentMonth), 9);
      && |r| == MonthIndex(YearMonth(currentYear, currentMonth)) - MonthIndex(start) + 1
      && forall k :: 0 <= k < |r| ==> 1 <= r[k].month <= 12 && MonthIndex(r[k]) == MonthIndex(start) + k
  {
    MonthsFrom(YearMonth(StartYear(currentYear, currentMonth), 9), (currentMonth - 9) % 12 + 1)
  }

  /** The walk starts in September of the start year, ends at the current month,
      and so visits ((currentMonth - 9) mod 12) + 1 months. */
  lemma SchoolYearMonthsEnds(currentYear: int, currentMonth: int)
    requires 1 <= currentMonth <= 12
    ensures var ms := SchoolYearMonths(currentYear, currentMonth);
      && 1 <= |ms| == (currentMonth - 9) % 12 + 1 <= 12
      && ms[0] == YearMonth(StartYear(currentYear, currentMonth), 9)
      && ms[|ms| - 1] == YearMonth(currentYear, currentMonth)
      && (forall k :: 0 <= k < |ms| ==> 1 <= ms[k].month <= 12)
  {
    var ms := SchoolYearMonths(currentYear, currentMonth);
    MonthIndexInjective(ms[0], YearMonth(StartYear(currentYear, currentMonth), 9));
    MonthIndexInjective(ms[|ms| - 1], YearMonth(currentYear, currentMonth));
  }

  /** Between its ends the walk steps one month at a time, December being followed by
      January of the next year. */
  lemma SchoolYearMonthsConsecutive(currentYear: int, currentMonth: int, k: nat)
    requires 1 <= currentMonth <= 12
    requires k + 1 < |SchoolYearMonths(currentYear, currentMonth)|
    ensures var ms := SchoolYearMonths(currentYear, currentMonth);
      ms[k + 1] == NextMonth(ms[k])
      && (ms[k].month == 12 ==> ms[k + 1] == YearMonth(ms[k].year + 1, 1))
  {
    var ms := SchoolYearMonths(currentYear, currentMonth);
    MonthIndexInjective(ms[k + 1], NextMonth(ms[k]));
  }

  // ---------------------------------------------------------------------------
  // Collecting the openings
  // ---------------------------------------------------------------------------

  /** A day counts as an opening of the centre when the centre has a positive count that
      day and the day is not after now. */
  predicate IsOpening(day: Day, cid: string, now: int)
  {
    cid in day.centers && day.centers[cid] > 0 && day.date <= now
  }

  function AsOpening(day: Day, cid: string): Opening
    requires cid in day.centers
  {
    Opening(day.date, day.centers[cid], day.weekdayName)
  }

  /** The openings `data.calendar.forEach` pushes for one month, in calendar order. */
  function DayOpenings(days: seq<Day>, cid: string, now: int): (r: seq<Opening>)
    ensures forall k :: 0 <= k < |r| ==> r[k].count > 0 && r[k].date <= now
  {
    if days == [] then []
    else
      var last := days[|days| - 1];
      DayOpenings(days[..|days| - 1], cid, now) + (if IsOpening(last, cid, now) then [AsOpening(last, cid)] else [])
  }

  /** The positions of the days of a month that qualify as openings, in calendar order. */
  function QualifyingDays(days: seq<Day>, cid: string, now: int): (idx: seq<nat>)
    ensures forall a, b :: 0 <= a < b < |idx| ==> idx[a] < idx[b]
    ensures forall j: nat :: j in idx <==> j < |days| && IsOpening(days[j], cid, now)
  {
    if days == [] then []
    else
      var init := days[..|days| - 1];
      var rest := QualifyingDays(init, cid, now);
      assert forall j :: 0 <= j < |init| ==> init[j] == days[j];
      assert forall k :: 0 <= k < |rest| ==> rest[k] in rest;
      if IsOpening(days[|days| - 1], cid, now) then rest + [|days| - 1] else rest
  }

  /** The openings of a month are exactly the qualifying days, each once and in calendar
      order: nothing else is collected. */
  lemma {:induction false} DayOpeningsExact(days: seq<Day>, cid: string, now: int)
    ensures var r := DayOpenings(days, cid, now);
      var idx := QualifyingDays(days, cid, now);
      && |r| == |idx|
      && forall k :: 0 <= k < |r| ==>
           idx[k] < |days| && IsOpening(days[idx[k]], cid, now) && r[k] == AsOpening(days[idx[k]], cid)
  {
    if days != [] {
      var init := days[..|days| - 1];
      DayOpeningsExact(init, cid, now);
      var idx0 := QualifyingDays(init, cid, now);
      assert forall k :: 0 <= k < |idx0| ==> idx0[k] in idx0;
      forall k | 0 <= k < |idx0| ensures init[idx0[k]] == days[idx0[k]] {
      }
    }
  }

  /** Every day of the month that qualifies is among its openings. */
  lemma DayOpeningsComplete(days: seq<Day>, cid: string, now: int, j: nat)
    requires j < |days| && IsOpening(days[j], cid, now)
    ensures AsOpening(days[j], cid) in DayOpenings(days, cid, now)
  {
    DayOpeningsExact(days, cid, now);
    var idx := QualifyingDays(days, cid, now);
    assert j in idx;
    var k :| 0 <= k < |idx| && idx[k] == j;
    assert DayOpenings(days, cid, now)[k] == AsOpening(days[j], cid);
  }

  /** What one month contributes: nothing when the request failed or had no calendar. */
  function MonthOpenings(data: Option<seq<Day>>, cid: string, now: int): seq<Opening>
  {
    if data.None? then [] else DayOpenings(data.value, cid, now)
  }

  /** All openings of the given months, in the order they are pushed. */
  function Collected(months: seq<YearMonth>, calendarMonth: YearMonth -> Option<seq<Day>>,
                     cid: string, now: int): (r: seq<Opening>)
    ensures forall k :: 0 <= k < |r| ==> r[k].count > 0 && r[k].date <= now
  {
    if months == [] then []
    else
      Collected(months[..|months| - 1], calendarMonth, cid, now)
      + MonthOpenings(calendarMonth(months[|months| - 1]), cid, now)
  }

  /** Every qualifying day of every month that answered is among the collected openings. */
  lemma {:induction false} CollectedComplete(months: seq<YearMonth>,
                                             calendarMonth: YearMonth -> Option<seq<Day>>,
                                             cid: string, now: int, m: nat, day: Day)
    requires m < |months| && calendarMonth(months[m]).Some?
    requires day in calendarMonth(months[m]).value && IsOpening(day, cid, now)
    ensures AsOpening(day, cid) in Collected(months, calendarMonth, cid, now)
  {
    var init := months[..|months| - 1];
    if m == |months| - 1 {
      var days := calendarMonth(months[m]).value;
      var k :| 0 <= k < |days| && days[k] == day;
      DayOpeningsComplete(days, cid, now, k);
    } else {
      assert init[m] == months[m];
      CollectedComplete(init, calendarMonth, cid, now, m, day);
    }
  }

  /** The `j`-th day of the calendar of month `m` arrived, qualifies, and `o` is its
      opening. */
  predicate OpeningOfMonth(o: Opening, months: seq<YearMonth>,
                           calendarMonth: YearMonth -> Option<seq<Day>>,
                           cid: string, now: int, m: int, j: int)
  {
    && 0 <= m < |months| && calendarMonth(months[m]).Some?
    && 0 <= j < |calendarMonth(months[m]).value|
    && IsOpening(calendarMonth(months[m]).value[j], cid, now)
    && o == AsOpening(calendarMonth(months[m]).value[j], cid)
  }

  /** Where a collected opening comes from: the position of a month and of a day in that
      month's calendar. */
  datatype Source = Source(month: nat, day: nat)

  /** Source `a` comes before source `b`: an earlier month, or an earlier day of the
      same month. */
  predicate Before(a: Source, b: Source)
  {
    a.month < b.month || (a.month == b.month && a.day < b.day)
  }

  /** The sources of month `m`: none when its request failed, otherwise its qualifying
      days in calendar order. */
  function MonthSources(m: nat, data: Option<seq<Day>>, cid: string, now: int): (src: seq<Source>)
    ensures data.None? ==> src == []
    ensures data.Some? ==>
      var idx := QualifyingDays(data.value, cid, now);
      |src| == |idx| && forall i :: 0 <= i < |src| ==> src[i] == Source(m, idx[i])
  {
    match data
    case None => []
    case Some(days) =>
      var idx := QualifyingDays(days, cid, now);
      seq(|idx|, i requires 0 <= i < |idx| => Source(m, idx[i]))
  }

  /** The qualifying days of every month whose calendar arrived, month after month and in
      calendar order within a month; a month whose request failed has none. */
  function Sources(months: seq<YearMonth>, calendarMonth: YearMonth -> Option<seq<Day>>,
                   cid: string, now: int): (src: seq<Source>)
    ensures forall a, b :: 0 <= a < b < |src| ==> Before(src[a], src[b])
    ensures forall k :: 0 <= k < |src| ==> src[k].month < |months|
  {
    if months == [] then []
    else
      var m := |months| - 1;
      Sources(months[..m], calendarMonth, cid, now)
      + MonthSources(m, calendarMonth(months[m]), cid, now)
  }

  /** The collected openings are exactly the openings of the qualifying days of the months
      whose calendar arrived: the k-th collected opening is that of the k-th source, so
      each qualifying day is collected once, month after month and in calendar order, and
      a month whose request failed contributes nothing. */
  lemma {:induction false} CollectedExact(months: seq<YearMonth>,
                                          calendarMonth: YearMonth -> Option<seq<Day>>,
                                          cid: string, now: int)
    ensures var r := Collected(months, calendarMonth, cid, now);
      var src := Sources(months, calendarMonth, cid, now);
      && |r| == |src|
      && forall k :: 0 <= k < |r| ==>
           OpeningOfMonth(r[k], months, calendarMonth, cid, now, src[k].month, src[k].day)
  {
    if months != [] {
      var m := |months| - 1;
      var init := months[..m];
      CollectedExact(init, calendarMonth, cid, now);
      var before := Collected(init, calendarMonth, cid, now);
      var earlier := Sources(init, calendarMonth, cid, now);
      var ok := (o: Opening, s: Source) => OpeningOfMonth(o, months, calendarMonth, cid, now, s.month, s.day);
      forall k | 0 <= k < |before| ensures ok(before[k], earlier[k]) {
        OpeningOfLongerMonths(before[k], init, months, calendarMonth, cid, now, earlier[k].month, earlier[k].day);
      }
      var mo := MonthOpenings(calendarMonth(months[m]), cid, now);
      var ms := MonthSources(m, calendarMonth(months[m]), cid, now);
      LastMonthExact(months, calendarMonth, cid, now);
      PairedConcat(before, mo, earlier, ms, ok);
    }
  }

  /** An opening of a month stays one when more months follow. */
  lemma OpeningOfLongerMonths(o: Opening, init: seq<YearMonth>, months: seq<YearMonth>,
                              calendarMonth: YearMonth -> Option<seq<Day>>,
                              cid: string, now: int, m: int, j: int)
    requires |init| <= |months| && init == months[..|init|]
    requires OpeningOfMonth(o, init, calendarMonth, cid, now, m, j)
    ensures OpeningOfMonth(o, months, calendarMonth, cid, now, m, j)
  {
    assert init[m] == months[m];
  }

  /** The openings of the last month are those of its sources. */
  lemma LastMonthExact(months: seq<YearMonth>, calendarMonth: YearMonth -> Option<seq<Day>>,
                       cid: string, now: int)
    requires months != []
    ensures var m := |months| - 1;
      var mo := MonthOpenings(calendarMonth(months[m]), cid, now);
      var ms := MonthSources(m, calendarMonth(months[m]), cid, now);
      && |mo| == |ms|
      && forall i :: 0 <= i < |mo| ==>
           OpeningOfMonth(mo[i], months, calendarMonth, cid, now, ms[i].month, ms[i].day)
  {
    var m := |months| - 1;
    if calendarMonth(months[m]).Some? {
      DayOpeningsExact(calendarMonth(months[m]).value, cid, now);
    }
  }

  /** Pairs that match in two pairs of lists of equal lengths still match once the lists
      are concatenated. */
  lemma PairedConcat<A, B>(a1: seq<A>, a2: seq<A>, b1: seq<B>, b2: seq<B>, ok: (A, B) -> bool)
    requires |a1| == |b1| && |a2| == |b2|
    requires forall k :: 0 <= k < |a1| ==> ok(a1[k], b1[k])
    requires forall k :: 0 <= k < |a2| ==> ok(a2[k], b2[k])
    ensures forall k :: 0 <= k < |a1 + a2| ==> ok((a1 + a2)[k], (b1 + b2)[k])
  {
    forall k | 0 <= k < |a1 + a2| ensures ok((a1 + a2)[k], (b1 + b2)[k]) {
      if k >= |a1| {
        assert (a1 + a2)[k] == a2[k - |a1|] && (b1 + b2)[k] == b2[k - |b1|];
      }
    }
  }

  lemma DayOpeningsStep(days: seq<Day>, j: nat, cid: string, now: int)
    requires j < |days|
    ensures DayOpenings(days[..j + 1], cid, now)
            == DayOpenings(days[..j], cid, now)
               + (if IsOpening(days[j], cid, now) then [AsOpening(days[j], cid)] else [])
  {
    assert days[..j + 1][..j] == days[..j];
  }

  lemma CollectedStep(months: seq<YearMonth>, k: nat,
                      calendarMonth: YearMonth -> Option<seq<Day>>, cid: string, now: int)
    requires k < |months|
    ensures Collected(months[..k + 1], calendarMonth, cid, now)
            == Collected(months[..k], calendarMonth, cid, now)
               + MonthOpenings(calendarMonth(months[k]), cid, now)
  {
    assert months[..k + 1][..k] == months[..k];
  }

  /** `months` is the walk from `first` to `last`, one calendar month per step. */
  predicate IsWalk(months: seq<YearMonth>, first: YearMonth, last: YearMonth)
  {
    && |months| >= 1
    && months[0] == first
    && months[|months| - 1] == last
    && forall k :: 0 <= k < |months| ==>
         1 <= months[k].month <= 12 && MonthIndex(months[k]) == MonthIndex(first) + k
  }

  lemma SchoolYearWalk(currentYear: int, currentMonth: int)
    requires 1 <= currentMonth <= 12
    ensures IsWalk(SchoolYearMonths(currentYear, currentMonth),
                   YearMonth(StartYear(currentYear, currentMonth), 9),
                   YearMonth(currentYear, currentMonth))
  {
    SchoolYearMonthsEnds(currentYear, currentMonth);
  }

  /** Where a walk stands after `visited` steps: the loop condition of
      `fetchAllOpenings` holds exactly while months remain, and then the current
      `year`/`month` is the next month of the walk. */
  lemma WalkPosition(months: seq<YearMonth>, first: YearMonth, last: YearMonth,
                     year: int, month: int, visited: nat)
    requires IsWalk(months, first, last)
    requires 1 <= month <= 12 && visited <= |months|
    requires MonthIndex(YearMonth(year, month)) == MonthIndex(first) + visited
    ensures (year < last.year || (year == last.year && month <= last.month)) <==> visited < |months|
    ensures visited < |months| ==> months[visited] == YearMonth(year, month)
  {
    if visited < |months| {
      MonthIndexInjective(months[visited], YearMonth(year, month));
    }
  }

  /** `data.calendar.forEach(...)`: appends this center's openings of one month,
      day by day, to what has been collected so far. */
  method PushDayOpenings(collected: seq<Opening>, days: seq<Day>, cid: string, now: int)
    returns (r: seq<Opening>)
    ensures r == collected + DayOpenings(days, cid, now)
  {
    r := collected;
    var j := 0;
    while j < |days|
      invariant 0 <= j <= |days|
      invariant r == collected + DayOpenings(days[..j], cid, now)
    {
      DayOpeningsStep(days, j, cid, now);
      var day := days[j];
      if cid in day.centers && day.centers[cid] > 0 {
        if day.date <= now {
          r := r + [Opening(day.date, day.centers[cid], day.weekdayName)];
        }
      }
      j := j + 1;
    }
    assert days[..j] == days;
  }

  /** The `while` loop of `fetchAllOpenings`: walks from `year`/`month` up to the
      current month, appending each month's openings in turn. */
  method CollectMonths(cid: string, year0: int, month0: int, currentYear: int, currentMonth: int,
                       now: int, calendarMonth: YearMonth -> Option<seq<Day>>,
                       ghost months: seq<YearMonth>)
    returns (allOpenings: seq<Opening>)
    requires IsWalk(months, YearMonth(year0, month0), YearMonth(currentYear, currentMonth))
    ensures allOpenings == Collected(months, calendarMonth, cid, now)
  {
    var year, month := year0, month0;
    allOpenings := [];
    ghost var visited: nat := 0;
    while year < currentYear || (year == currentYear && month <= currentMonth)
      invariant 1 <= month <= 12 && visited <= |months|
      invariant MonthIndex(YearMonth(year, month)) == MonthIndex(months[0]) + visited
      invariant allOpenings == Collected(months[..visited], calendarMonth, cid, now)
      decreases |months| - visited
    {
      WalkPosition(months, months[0], months[|months| - 1], year, month, visited);
      CollectedStep(months, visited, calendarMonth, cid, now);
      var data := calendarMonth(YearMonth(year, month));
      ghost var before := allOpenings;
      if data.Some? {
        allOpenings := PushDayOpenings(allOpenings, data.value, cid, now);
      }
      assert allOpenings == before + MonthOpenings(data, cid, now);
      ghost var next := Collected(months[..visited + 1], calendarMonth, cid, now);
      assert allOpenings == next;
      month := month + 1;
      if month > 12 {
        month := 1;
        year := year + 1;
      }
      visited := visited + 1;
      assert allOpenings == Collected(months[..visited], calendarMonth, cid, now);
    }
    WalkPosition(months, months[0], months[|months| - 1], year, month, visited);
    assert months[..visited] == months;
  }

  /** `fetchAllOpenings`: the openings of the school year so far, sorted by date. */
  method FetchAllOpenings(cid: string, currentYear: int, currentMonth: int, now: int,
                          calendarMonth: YearMonth -> Option<seq<Day>>)
    returns (openings: seq<Opening>)
    requires 1 <= currentMonth <= 12
    ensures openings == SortBy(Collected(SchoolYearMonths(currentYear, currentMonth),
                                         calendarMonth, cid, now), OpeningDate)
    ensures SortedBy(openings, OpeningDate)
    ensures forall k :: 0 <= k < |openings| ==> openings[k].count > 0 && openings[k].date <= now
  {
    var startYear := if currentMonth >= 9 then currentYear else currentYear - 1;
    var startMonth := 9;
    SchoolYearWalk(currentYear, currentMonth);
    var allOpenings := CollectMonths(cid, startYear, startMonth, currentYear, currentMonth, now,
                                     calendarMonth, SchoolYearMonths(currentYear, currentMonth));
    openings := SortBy(allOpenings, OpeningDate);
    forall k | 0 <= k < |openings| ensures openings[k].count > 0 && openings[k].date <= now {
      assert openings[k] in multiset(allOpenings);
    }
  }

  // ---------------------------------------------------------------------------
  // The stat cards
  // ---------------------------------------------------------------------------

  /** The values `calculateOpeningStats` writes: the latest count, the window sums
      and the three changes. */
  datatype OpeningStats = OpeningStats(
    lastCount: int,
    last5Sum: int, prev5Sum: int, last10Sum: int, prev10Sum: int,
    dayChange: int, weekChange: int, monthChange: int)

  /** `calculateOpeningStats` on a list of openings sorted by date. */
  function CalculateOpeningStats(openings: seq<Opening>): (r: OpeningStats)
    ensures var n := |openings|;
      && r.lastCount == (if n == 0 then 0 else openings[n - 1].count)
      && r.last5Sum == SumBy(openings[n - Min(5, n)..], OpeningCount)
      && r.last10Sum == SumBy(openings[n - Min(10, n)..], OpeningCount)
      && r.prev5Sum == SumBy(openings[Max(n - 10, 0)..Max(n - 5, 0)], OpeningCount)
      && r.prev10Sum == SumBy(openings[Max(n - 20, 0)..Max(n - 10, 0)], OpeningCount)
      && r.dayChange == (if n >= 2 then openings[n - 1].count - openings[n - 2].count else 0)
      && r.weekChange == (if n > 5 then r.last5Sum - r.prev5Sum else 0)
      && r.monthChange == (if n > 10 then r.last10Sum - r.prev10Sum else 0)
  {
    var total := |openings|;
    var last5 := JsSlice(openings, -5, None);
    var prev5 := JsSlice(openings, -10, Some(-5));
    var last10 := JsSlice(openings, -10, None);
    var prev10 := JsSlice(openings, -20, Some(-10));
    StatWindows(openings);
    var last5Sum := SumBy(last5, OpeningCount);
    var prev5Sum := SumBy(prev5, OpeningCount);
    var last10Sum := SumBy(last10, OpeningCount);
    var prev10Sum := SumBy(prev10, OpeningCount);
    // `lastOpening?.count || 0`: a missing opening and a zero count both show 0
    var lastCount := if total >= 1 then openings[total - 1].count else 0;
    // `prevOpening ? ... : 0`: the previous opening exists once there are two
    var dayChange := if total >= 2 then lastCount - openings[total - 2].count else 0;
    var weekChange := if |prev5| > 0 then last5Sum - prev5Sum else 0;
    var monthChange := if |prev10| > 0 then last10Sum - prev10Sum else 0;
    OpeningStats(lastCount, last5Sum, prev5Sum, last10Sum, prev10Sum,
                 dayChange, weekChange, monthChange)
  }

  /** The four windows `calculateOpeningStats` sums, as positions of the openings: the
      preceding windows are non-empty exactly when there are more openings than the
      window after them. */
  lemma StatWindows(openings: seq<Opening>)
    ensures var n := |openings|;
      && JsSlice(openings, -5, None) == openings[n - Min(5, n)..]
      && JsSlice(openings, -10, None) == openings[n - Min(10, n)..]
      && JsSlice(openings, -10, Some(-5)) == openings[Max(n - 10, 0)..Max(n - 5, 0)]
      && JsSlice(openings, -20, Some(-10)) == openings[Max(n - 20, 0)..Max(n - 10, 0)]
      && (|JsSlice(openings, -10, Some(-5))| > 0 <==> n > 5)
      && (|JsSlice(openings, -20, Some(-10))| > 0 <==> n > 10)
  {
    SliceLast(openings, 5);
    SliceLast(openings, 10);
    SliceWindow(openings, 10, 5);
    SliceWindow(openings, 20, 10);
  }

  /** With at least ten openings, the last-10 window is the last-5 window plus the
      window before it. */
  lemma TenWindowSplits(openings: seq<Opening>)
    requires |openings| >= 10
    ensures var r := CalculateOpeningStats(openings);
      r.last10Sum == r.last5Sum + r.prev5Sum
  {
    var n := |openings|;
    assert openings[n - 10..] == openings[n - 10..n - 5] + openings[n - 5..];
    SumByAppend(openings[n - 10..n - 5], openings[n - 5..], OpeningCount);
  }

  /** With between 6 and 10 openings the preceding 5-window is everything before the
      last five, so the week change compares the last five with that shorter prefix. */
  lemma ShortPrecedingWindow(openings: seq<Opening>)
    requires 5 < |openings| <= 10
    ensures var r := CalculateOpeningStats(openings);
      && r.prev5Sum == SumBy(openings[..|openings| - 5], OpeningCount)
      && r.weekChange == SumBy(openings[|openings| - 5..], OpeningCount)
                         - SumBy(openings[..|openings| - 5], OpeningCount)
      && r.monthChange == 0
  {
  }

  /** Seven openings whose last five sum to 20 and first two to 3 give prev5Sum 3 and
      weekChange 17. */
  lemma SevenOpeningsExample(openings: seq<Opening>)
    requires |openings| == 7
    requires SumBy(openings[..2], OpeningCount) == 3
    requires SumBy(openings[2..], OpeningCount) == 20
    ensures CalculateOpeningStats(openings).last5Sum == 20
    ensures CalculateOpeningStats(openings).prev5Sum == 3
    ensures CalculateOpeningStats(openings).weekChange == 17
  {
    ShortPrecedingWindow(openings);
  }

  /** For collected openings (all counts positive) the windows nest: the latest
      count is at most the 5-sum, which is at most the 10-sum. */
  lemma WindowsNest(openings: seq<Opening>)
    requires forall k :: 0 <= k < |openings| ==> openings[k].count > 0
    ensures var r := CalculateOpeningStats(openings);
      0 <= r.lastCount <= r.last5Sum <= r.last10Sum
  {
    var n := |openings|;
    SumBySuffixMonotone(openings, n - Min(10, n), n - Min(5, n), OpeningCount);
    if n > 0 {
      SumBySuffixMonotone(openings, n - Min(5, n), n - 1, OpeningCount);
      var last := openings[n - 1..];
      assert last == [openings[n - 1]] && last[1..] == [];
      assert SumBy(last, OpeningCount) == openings[n - 1].count;
    }
  }

  // ---------------------------------------------------------------------------
  // Change indicators
  // ---------------------------------------------------------------------------

  /** The text and CSS class `updateChangeIndicator` gives a change element. */
  datatype Indicator = Indicator(text: string, className: string)

  const UpArrow: string := "↑ "
  const DownArrow: string := "↓ "
  const NoChange: string := "—"

  function ChangeIndicator(change: int): (r: Indicator)
    ensures change > 0 ==> r.className == "stat-change positive"
    ensures change < 0 ==> r.className == "stat-change negative"
    ensures change == 0 ==> r.className == "stat-change" && r.text == NoChange
    ensures change > 0 ==> r.text == UpArrow + NatToString(change)
    ensures change < 0 ==> r.text == DownArrow + NatToString(-change)
    ensures ReadIndicator(r.text) == Some(change)
  {
    if change > 0 then
      ReadUp(change);
      Indicator(UpArrow + NatToString(change), "stat-change positive")
    else if change < 0 then
      ReadDown(-change);
      Indicator(DownArrow + NatToString(-change), "stat-change negative")
    else
      Indicator(NoChange, "stat-change")
  }

  lemma ReadUp(n: nat)
    ensures ReadIndicator(UpArrow + NatToString(n)) == Some(n)
  {
    var t := UpArrow + NatToString(n);
    ParseDecimalOfNatToString(n);
    assert |t| != |NoChange|;
    assert t[..2] == UpArrow;
    assert t[2..] == NatToString(n);
  }

  lemma ReadDown(n: nat)
    ensures ReadIndicator(DownArrow + NatToString(n)) == Some(-(n as int))
  {
    var t := DownArrow + NatToString(n);
    ParseDecimalOfNatToString(n);
    assert |t| != |NoChange|;
    assert t[0] != UpArrow[0];
    assert t[..2] == DownArrow;
    assert t[2..] == NatToString(n);
  }

  /** How a reader recovers the change from an indicator's text. */
  function ReadIndicator(text: string): Option<int>
  {
    if text == NoChange then Some(0)
    else if |text| >= 2 && text[..2] == UpArrow then
      match ParseDecimal(text[2..])
      case Some(v) => Some(v as int)
      case None => None
    else if |text| >= 2 && text[..2] == DownArrow then
      match ParseDecimal(text[2..])
      case Some(v) => Some(-(v as int))
      case None => None
    else None
  }

  /** The three indicators are told apart by their class names. */
  lemma IndicatorClassDeterminesSign(change: int)
    ensures ChangeIndicator(change).className == "stat-change positive" <==> change > 0
    ensures ChangeIndicator(change).className == "stat-change negative" <==> change < 0
    ensures ChangeIndicator(change).className == "stat-change" <==> change == 0
  {
  }

  // ---------------------------------------------------------------------------
  // Line chart x-axis labels
  // ---------------------------------------------------------------------------

  /** The gap between labelled points of the line chart: a tenth of the number of points,
      rounded up. */
  function LabelStep(n: nat): (k: nat)
    requires n > 0
    ensures k >= 1 && 10 * (k - 1) < n <= 10 * k
  {
    (n + 9) / 10
  }

  function LabelsFrom(n: nat, step: nat, i: nat): (r: seq<nat>)
    requires step > 0 && i <= n
    ensures forall x: nat :: x in r <==> i <= x < n && (x % step == 0 || x == n - 1)
    ensures forall a, b :: 0 <= a < b < |r| ==> r[a] < r[b]
    decreases n - i
  {
    if i == n then []
    else
      var rest := LabelsFrom(n, step, i + 1);
      assert forall k :: 0 <= k < |rest| ==> rest[k] in rest;
      if i % step == 0 || i == n - 1 then [i] + rest else rest
  }

  /** The indices of the points that get a date label: every `Math.ceil(n / 10)`-th
      point and the last one, in order. */
  function XLabelIndices(n: nat): (r: seq<nat>)
    ensures n == 0 ==> r == []
    ensures n > 0 ==> forall x: nat :: x in r <==> x < n && (x % LabelStep(n) == 0 || x == n - 1)
    ensures forall a, b :: 0 <= a < b < |r| ==> r[a] < r[b]
  {
    if n == 0 then [] else LabelsFrom(n, LabelStep(n), 0)
  }

  /** The first and the last point are always labelled. */
  lemma XLabelsIncludeEnds(n: nat)
    requires n > 0
    ensures var r := XLabelIndices(n);
      r != [] && r[0] == 0 && r[|r| - 1] == n - 1
  {
    var r := XLabelIndices(n);
    assert 0 in r;
    assert n - 1 in r;
    var i :| 0 <= i < |r| && r[i] == 0;
    var j :| 0 <= j < |r| && r[j] == n - 1;
    assert r[0] <= r[i];
    assert r[j] <= r[|r| - 1];
    assert r[|r| - 1] in r;
  }

  // ---------------------------------------------------------------------------
  // School and grade bar charts
  // ---------------------------------------------------------------------------

  /** What a chart container shows: the "Engin gögn" message, or bars. */
  datatype Chart = NoData | Bars(bars: seq<Bar>)

  /** `bySchool` / `byGrade` of the `statistics` reply: counts per key, and optionally
      a `_month` sub-object with this month's counts. */
  datatype Aggregate = Aggregate(entries: seq<Entry>, month: Option<seq<Entry>>)

  /** `data._month || data`: the month's counts are drawn whenever they are present. */
  function ChartData(agg: Aggregate): (r: seq<Entry>)
    ensures agg.month.Some? ==> r == agg.month.value
    ensures agg.month.None? ==> r == agg.entries
  {
    match agg.month
    case Some(m) => m
    case None => agg.entries
  }

  /** `renderSchoolChart`: visible entries, largest count first; widths against the
      first (largest) count, percentages of the total. */
  function SchoolChart(data: seq<Entry>): (c: Chart)
    ensures c.NoData? <==> Visible(data) == []
    ensures c.Bars? ==> |c.bars| == |Visible(data)|
  {
    var entries := SortByCountDesc(Visible(data));
    if entries == [] then NoData
    else Bars(ToBars(entries, entries[0].count, SumBy(entries, Count)))
  }

  /** The school chart is empty exactly when no entry is visible; otherwise it shows
      the visible entries, largest count first. */
  lemma SchoolChartShows(data: seq<Entry>)
    ensures SchoolChart(data).NoData? <==> Visible(data) == []
    ensures SchoolChart(data).Bars? ==>
              && ShowsEntries(SchoolChart(data).bars, Visible(data))
              && var bars := SchoolChart(data).bars;
                 forall i, j :: 0 <= i < j < |bars| ==> bars[i].count >= bars[j].count
  {
    var visible := Visible(data);
    var entries := SortByCountDesc(visible);
    if entries != [] {
      SumByPermutation(entries, visible, Count);
      BarsOfEntries(entries, visible, entries[0].count, SumBy(entries, Count));
    }
  }

  /** The grade a key is sorted by: the number `parseInt` reads from it, and 0 when it
      reads none (NaN compares as neither smaller nor larger). */
  function GradeNumber(e: Entry): (n: int)
    ensures e.key != [] && AllDigits(e.key) ==> n == DigitsValue(e.key)
    ensures e.key != [] && !IsJsWhitespace(e.key[0]) && !IsDigit(e.key[0])
              && e.key[0] != '-' && e.key[0] != '+'
            ==> n == 0
  {
    match ParseInt(e.key)
    case Some(v) => v
    case None => 0
  }

  /** `renderGradeChart`: visible entries in ascending grade order; widths against the
      largest count, percentages of the total. */
  function GradeChart(data: seq<Entry>): (c: Chart)
    ensures c.NoData? <==> Visible(data) == []
    ensures c.Bars? ==> |c.bars| == |Visible(data)|
  {
    var entries := SortBy(Visible(data), GradeNumber);
    if entries == [] then NoData
    else Bars(ToBars(entries, MaxBy(entries, Count), SumBy(entries, Count)))
  }

  /** The grade chart is empty exactly when no entry is visible; otherwise it shows
      the visible entries in ascending grade order. */
  lemma GradeChartShows(data: seq<Entry>)
    ensures GradeChart(data).NoData? <==> Visible(data) == []
    ensures GradeChart(data).Bars? ==>
              && ShowsEntries(GradeChart(data).bars, Visible(data))
              && var drawn := Drawn(GradeChart(data).bars);
                 forall i, j :: 0 <= i < j < |drawn| ==> GradeNumber(drawn[i]) <= GradeNumber(drawn[j])
  {
    var visible := Visible(data);
    var entries := SortBy(visible, GradeNumber);
    if entries != [] {
      MaxByPermutation(entries, visible, Count);
      SumByPermutation(entries, visible, Count);
      BarsOfEntries(entries, visible, MaxBy(entries, Count), SumBy(entries, Count));
    }
  }

  // ---------------------------------------------------------------------------
  // The whole page
  // ---------------------------------------------------------------------------

  /** The `statistics` reply; a missing `bySchool` or `byGrade` leaves its chart alone. */
  datatype StatsResponse = StatsResponse(bySchool: Option<Aggregate>, byGrade: Option<Aggregate>)

  /** Everything `loadStatistics` writes once there are openings. */
  datatype Dashboard = Dashboard(
    stats: OpeningStats,
    dayIndicator: Indicator, weekIndicator: Indicator, monthIndicator: Indicator,
    openingCount: nat, xLabels: seq<nat>,
    schoolChart: Option<Chart>, gradeChart: Option<Chart>)

  /** `loadStatistics`: nothing is drawn when the school year has no openings yet;
      otherwise the stat cards and the line chart come from the sorted openings and
      each bar chart is drawn from its `_month` counts when those are present. */
  method LoadStatistics(cid: string, currentYear: int, currentMonth: int, now: int,
                        calendarMonth: YearMonth -> Option<seq<Day>>,
                        statsData: Option<StatsResponse>)
    returns (view: Option<Dashboard>)
    requires 1 <= currentMonth <= 12
    ensures var collected := Collected(SchoolYearMonths(currentYear, currentMonth), calendarMonth, cid, now);
      view.None? <==> collected == []
    ensures view.Some? ==>
      var openings := SortBy(Collected(SchoolYearMonths(currentYear, currentMonth), calendarMonth, cid, now), OpeningDate);
      && view.value.stats == CalculateOpeningStats(openings)
      && view.value.dayIndicator == ChangeIndicator(view.value.stats.dayChange)
      && view.value.weekIndicator == ChangeIndicator(view.value.stats.weekChange)
      && view.value.monthIndicator == ChangeIndicator(view.value.stats.monthChange)
      && view.value.openingCount == |openings| > 0
      && view.value.xLabels == XLabelIndices(|openings|)
    ensures view.Some? ==>
      && (view.value.schoolChart.Some? <==> statsData.Some? && statsData.value.bySchool.Some?)
      && (view.value.gradeChart.Some? <==> statsData.Some? && statsData.value.byGrade.Some?)
      && (view.value.schoolChart.Some? ==>
            view.value.schoolChart.value == SchoolChart(ChartData(statsData.value.bySchool.value)))
      && (view.value.gradeChart.Some? ==>
            view.value.gradeChart.value == GradeChart(ChartData(statsData.value.byGrade.value)))
  {
    var openings := FetchAllOpenings(cid, currentYear, currentMonth, now, calendarMonth);
    if |openings| == 0 {
      return None;
    }
    var stats := CalculateOpeningStats(openings);
    var school: Option<Chart> := None;
    var grade: Option<Chart> := None;
    if statsData.Some? {
      if statsData.value.bySchool.Some? {
        school := Some(SchoolChart(ChartData(statsData.value.bySchool.value)));
      }
      if statsData.value.byGrade.Some? {
        grade := Some(GradeChart(ChartData(statsData.value.byGrade.value)));
      }
    }
    view := Some(Dashboard(stats,
                           ChangeIndicator(stats.dayChange),
                           ChangeIndicator(stats.weekChange),
                           ChangeIndicator(stats.monthChange),
                           |openings|, XLabelIndices(|openings|), school, grade));
  }
}
