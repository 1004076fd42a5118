/**
  Broken-down time and time zones: src/base/TimeZone.cc.

  `gmtime_r` and `timegm`, which the local-time functions take from the C library, are modelled
  by the file's own `ToUtcTime` and `FromUtcTime`.
 */
module TimeZone {
  import opened Common
  import opened Date

  const SECONDS_PER_DAY := 24 * 60 * 60

  /** The fields of `struct tm` the file reads and writes, with their C conventions. */
  datatype Tm = Tm(year: int, mon: int, mday: int, hour: int, min: int, sec: int,
                   wday: int, yday: int, isdst: int, gmtoff: int)

  // ---------------------------------------------------------------------------------------
  // UTC.

  function ToUtcTime(secondsSinceEpoch: int, yday: bool): Tm
  {
    var rest := TruncMod(secondsSinceEpoch, SECONDS_PER_DAY);
    var whole := TruncDiv(secondsSinceEpoch, SECONDS_PER_DAY);
    var seconds := if rest < 0 then rest + SECONDS_PER_DAY else rest;
    var days := if rest < 0 then whole - 1 else whole;
    var date := days + JULIAN_DAY_OF_1970_01_01;
    var ymd := GetYearMonthDay(date);
    var dayOfYear := if yday then date - GetJulianDayNumber(ymd.year, 1, 1) else 0;
    Tm(ymd.year - 1900, ymd.month - 1, ymd.day,
       seconds / 60 / 60, seconds / 60 % 60, seconds % 60, WeekDay(date), dayOfYear, 0, 0)
  }

  function FromUtcTime(tm: Tm): int
  {
    var secondsInDay := tm.hour * 3600 + tm.min * 60 + tm.sec;
    var days := GetJulianDayNumber(tm.year + 1900, tm.mon + 1, tm.mday) - JULIAN_DAY_OF_1970_01_01;
    days * SECONDS_PER_DAY + secondsInDay
  }

  function DateOf(tm: Tm): YearMonthDay { YearMonthDay(tm.year + 1900, tm.mon + 1, tm.mday) }

  predicate ValidTm(tm: Tm)
  {
    ValidDate(DateOf(tm)) && 0 <= tm.hour < 24 && 0 <= tm.min < 60 && 0 <= tm.sec < 60
  }

  /** Same date and time of day; the fields `FromUtcTime` does not read may differ. */
  predicate SameTime(x: Tm, y: Tm)
  {
    DateOf(x) == DateOf(y) && x.hour == y.hour && x.min == y.min && x.sec == y.sec
  }

  predicate TmLess(x: Tm, y: Tm)
  {
    DateLess(DateOf(x), DateOf(y))
    || (DateOf(x) == DateOf(y)
        && (x.hour < y.hour || (x.hour == y.hour && (x.min < y.min || (x.min == y.min && x.sec < y.sec)))))
  }

  /** From midnight of 1 March -4800 on. */
  predicate InUtcRange(t: int)
  {
    t >= (FIRST_JULIAN_DAY - JULIAN_DAY_OF_1970_01_01) * SECONDS_PER_DAY
  }

  function DayOf(t: int): int { t / SECONDS_PER_DAY + JULIAN_DAY_OF_1970_01_01 }

  lemma UtcFields(t: int, yday: bool)
    ensures var tm := ToUtcTime(t, yday);
            && DateOf(tm) == GetYearMonthDay(DayOf(t))
            && tm.hour * 3600 + tm.min * 60 + tm.sec == t % SECONDS_PER_DAY
            && 0 <= tm.hour < 24 && 0 <= tm.min < 60 && 0 <= tm.sec < 60
            && tm.yday == (if yday then DayOf(t) - GetJulianDayNumber(tm.year + 1900, 1, 1) else 0)
  {
    hide GetYearMonthDay, GetJulianDayNumber, WeekDay, TruncDiv, TruncMod;
    FloorSplit(t);
    HoursMinutesSeconds(t % SECONDS_PER_DAY);
  }

  lemma UtcRangeIsDayRange(t: int)
    ensures InUtcRange(t) <==> DayOf(t) >= FIRST_JULIAN_DAY
  {
  }

  lemma HoursMinutesSeconds(s: int)
    requires 0 <= s < SECONDS_PER_DAY
    ensures s / 60 / 60 * 3600 + s / 60 % 60 * 60 + s % 60 == s
    ensures 0 <= s / 60 / 60 < 24 && 0 <= s / 60 % 60 < 60
  {
  }

  /** The adjustment for negative times turns truncation into floor division. */
  lemma FloorSplit(t: int)
    ensures var r := TruncMod(t, SECONDS_PER_DAY);
            t % SECONDS_PER_DAY == (if r < 0 then r + SECONDS_PER_DAY else r)
            && t / SECONDS_PER_DAY == TruncDiv(t, SECONDS_PER_DAY) - (if r < 0 then 1 else 0)
  {
    if t < 0 {
      var q, r := -t / SECONDS_PER_DAY, -t % SECONDS_PER_DAY;
      assert t == -q * SECONDS_PER_DAY - r;
    }
  }

  lemma UtcHasNoOffset(t: int, yday: bool)
    ensures ToUtcTime(t, yday).isdst == ToUtcTime(t, yday).gmtoff == 0
  {
    hide GetYearMonthDay, GetJulianDayNumber, WeekDay, TruncDiv, TruncMod;
  }

  /** Exactly the times of the calendar's range get valid fields, and these read back. */
  lemma UtcRoundTrip(t: int, yday: bool)
    ensures ValidTm(ToUtcTime(t, yday)) <==> InUtcRange(t)
    ensures InUtcRange(t) ==> InCalendar(DateOf(ToUtcTime(t, yday))) && FromUtcTime(ToUtcTime(t, yday)) == t
    ensures ToUtcTime(t, yday).isdst == ToUtcTime(t, yday).gmtoff == 0
  {
    UtcHasNoOffset(t, yday);
    hide ToUtcTime, GetYearMonthDay, GetJulianDayNumber;
    UtcFields(t, yday);
    UtcRangeIsDayRange(t);
    JulianDayRoundTrip(DayOf(t));
  }

  /** Fields survive the way through seconds. */
  lemma UtcFieldsRoundTrip(tm: Tm, yday: bool)
    requires ValidTm(tm) && InCalendar(DateOf(tm))
    ensures InUtcRange(FromUtcTime(tm))
    ensures SameTime(ToUtcTime(FromUtcTime(tm), yday), tm)
  {
    hide ToUtcTime, GetYearMonthDay, GetJulianDayNumber;
    var t := FromUtcTime(tm);
    var j := GetJulianDayNumber(tm.year + 1900, tm.mon + 1, tm.mday);
    var s := tm.hour * 3600 + tm.min * 60 + tm.sec;
    assert DayOf(t) == j && t % SECONDS_PER_DAY == s;
    DateRoundTrip(DateOf(tm));
    JulianDayRoundTrip(j);
    DayNumberInRange(DateOf(tm));
    UtcRangeIsDayRange(t);
    UtcFields(t, yday);
    TimeOfDayUnique(tm, ToUtcTime(t, yday));
  }

  lemma DayNumberInRange(d: YearMonthDay)
    requires ValidDate(d) && InCalendar(d)
    ensures GetJulianDayNumber(d.year, d.month, d.day) >= FIRST_JULIAN_DAY
  {
    DayNumberOrder(d, YearMonthDay(-4800, 3, 1));
  }

  lemma TimeOfDayUnique(x: Tm, y: Tm)
    requires 0 <= x.hour && 0 <= x.min < 60 && 0 <= x.sec < 60
    requires 0 <= y.hour && 0 <= y.min < 60 && 0 <= y.sec < 60
    requires x.hour * 3600 + x.min * 60 + x.sec == y.hour * 3600 + y.min * 60 + y.sec
    ensures x.hour == y.hour && x.min == y.min && x.sec == y.sec
  {
  }

  /** Times are ordered as their fields. */
  lemma UtcOrder(t: int, u: int, ydayT: bool, ydayU: bool)
    requires InUtcRange(t) && InUtcRange(u)
    ensures t < u <==> TmLess(ToUtcTime(t, ydayT), ToUtcTime(u, ydayU))
  {
    hide ToUtcTime, GetYearMonthDay, GetJulianDayNumber, DateLess, ValidDate;
    var x, y := ToUtcTime(t, ydayT), ToUtcTime(u, ydayU);
    UtcRangeIsDayRange(t);
    UtcRangeIsDayRange(u);
    UtcFields(t, ydayT);
    UtcFields(u, ydayU);
    JulianDayRoundTrip(DayOf(t));
    JulianDayRoundTrip(DayOf(u));
    DayNumberOrder(DateOf(x), DateOf(y));
    DayThenTimeOfDay(t, u);
    if DayOf(t) == DayOf(u) {
      TimeOfDayOrder(x, y);
    }
  }

  lemma DayThenTimeOfDay(t: int, u: int)
    ensures t < u <==> DayOf(t) < DayOf(u) || (DayOf(t) == DayOf(u) && t % SECONDS_PER_DAY < u % SECONDS_PER_DAY)
  {
  }

  lemma TimeOfDayOrder(x: Tm, y: Tm)
    requires DateOf(x) == DateOf(y)
    requires 0 <= x.min < 60 && 0 <= x.sec < 60 && 0 <= y.min < 60 && 0 <= y.sec < 60
    ensures TmLess(x, y) <==> x.hour * 3600 + x.min * 60 + x.sec < y.hour * 3600 + y.min * 60 + y.sec
  {
  }

  /**
    `tm_yday` counts the days of the preceding months, except in the year -4800: its first two
    months lie before the calendar's range and the count comes out one short.
   */
  lemma UtcDayOfYear(t: int)
    requires InUtcRange(t)
    ensures var tm := ToUtcTime(t, true);
            tm.yday == DaysBeforeMonth(tm.year + 1900, tm.mon + 1) + tm.mday - 1
            <==> t >= (GetJulianDayNumber(-4799, 1, 1) - JULIAN_DAY_OF_1970_01_01) * SECONDS_PER_DAY
  {
    hide ToUtcTime, GetYearMonthDay, GetJulianDayNumber, DaysBeforeMonth;
    var tm := ToUtcTime(t, true);
    UtcFields(t, true);
    UtcRangeIsDayRange(t);
    JulianDayRoundTrip(DayOf(t));
    DayNumberOrder(DateOf(tm), YearMonthDay(-4799, 1, 1));
    if tm.year + 1900 > -4800 {
      DayOfYear(DateOf(tm));
    } else {
      DayOfFirstYear(DateOf(tm));
    }
  }

  /**
    `tm_wday` counts from Thursday, 1 January 1970, in weeks of seven days, except that the remainder
    of `weekDay` is negative before day -1, unless it is 0.
   */
  lemma UtcWeekDay(t: int, yday: bool)
    ensures ToUtcTime(t, yday).wday == (4 + t / SECONDS_PER_DAY) % 7 <==> DayOf(t) >= -1 || (DayOf(t) + 1) % 7 == 0
  {
    UtcWeekDayOfDay(t, yday);
    WeekDayExact(DayOf(t));
    FirstDayIsThursday(t);
    hide ToUtcTime, WeekDay, GetJulianDayNumber;
  }

  lemma UtcWeekDayOfDay(t: int, yday: bool)
    ensures ToUtcTime(t, yday).wday == WeekDay(DayOf(t))
  {
    hide GetYearMonthDay, GetJulianDayNumber, WeekDay, TruncDiv, TruncMod;
    FloorSplit(t);
  }

  lemma WeekDayExact(j: int)
    ensures WeekDay(j) == (j + 1) % 7 <==> j >= -1 || (j + 1) % 7 == 0
  {
  }

  lemma FirstDayIsThursday(t: int)
    ensures (DayOf(t) + 1) % 7 == (4 + t / SECONDS_PER_DAY) % 7
  {
    assert JULIAN_DAY_OF_1970_01_01 + 1 == 4 + 7 * 348_655;
  }

  /** The last second of the last day that the code can split. */
  const LAST_UTC_TIME := 46_172_011_391_999

  /** Every intermediate value of `toUtcTime` fits the `int` it is computed in. */
  predicate UtcFits(t: int)
  {
    var whole := TruncDiv(t, SECONDS_PER_DAY);
    && Int32(whole) && Int32(whole - 1) && Int32(DayOf(t)) && SplitFits(DayOf(t))
    && JoinFits(GetYearMonthDay(DayOf(t)).year, 1, 1)
  }

  /**
    The unbounded integers of the model are the machine's from the first second of the calendar
    up to a last one, both ways: the fields of these times are joined within 32 bits, too.
   */
  lemma UtcNoOverflow(t: int, yday: bool)
    requires InUtcRange(t)
    ensures UtcFits(t) <==> t <= LAST_UTC_TIME
    ensures UtcFits(t) ==>
              var tm := ToUtcTime(t, yday);
              JoinFits(tm.year + 1900, tm.mon + 1, tm.mday) && FromUtcTime(tm) == t
  {
    hide ToUtcTime, FromUtcTime, GetYearMonthDay, JoinFits, SplitFits, TruncDiv, GetJulianDayNumber;
    UtcRangeIsDayRange(t);
    UtcRoundTrip(t, yday);
    UtcFields(t, yday);
    NoOverflow(DayOf(t));
    LastDay(t);
    if DayOf(t) <= LAST_JULIAN_DAY {
      JoinNoOverflow(DayOf(t));
    }
  }

  lemma LastDay(t: int)
    ensures t <= LAST_UTC_TIME <==> DayOf(t) <= LAST_JULIAN_DAY
    ensures FIRST_JULIAN_DAY <= DayOf(t) <= LAST_JULIAN_DAY ==>
              var whole := TruncDiv(t, SECONDS_PER_DAY); Int32(whole) && Int32(whole - 1) && Int32(DayOf(t))
  {
    assert JULIAN_DAY_OF_1970_01_01 == 2_440_588;
    hide GetJulianDayNumber;
  }

  lemma FirstYearStart()
    ensures GetJulianDayNumber(-4800, 3, 1) - GetJulianDayNumber(-4800, 1, 1) == 59
  {
  }

  lemma DayOfFirstYear(d: YearMonthDay)
    requires ValidDate(d) && InCalendar(d) && d.year == -4800
    ensures GetJulianDayNumber(d.year, d.month, d.day) - GetJulianDayNumber(d.year, 1, 1)
         == DaysBeforeMonth(d.year, d.month) + d.day - 2
    decreases d.month
  {
    hide GetJulianDayNumber;
    FirstOfMonth(d);
    if d.month == 3 {
      FirstYearStart();
      assert DaysBeforeMonth(-4800, 3) == DaysBeforeMonth(-4800, 2) + 29;
    } else {
      var p := YearMonthDay(d.year, d.month - 1, DaysInMonth(d.year, d.month - 1));
      DayOfFirstYear(p);
      NextDayIsNextNumber(p);
    }
  }

  // ---------------------------------------------------------------------------------------
  // The transition table and its lookup.

  datatype Transition = Transition(gmttime: int, localtime: int, localtimeIdx: int)

  datatype Localtime = Localtime(gmtOffset: int, isDst: bool, arrbIdx: int)

  datatype Data = Data(transitions: seq<Transition>, localtimes: seq<Localtime>)

  /** The field the comparator `Comp(compareGmt)` orders by. */
  function Key(tr: Transition, compareGmt: bool): int
  {
    if compareGmt then tr.gmttime else tr.localtime
  }

  /** What the code relies on without checking it. */
  predicate TableOk(data: Data)
  {
    |data.localtimes| > 0
    && forall i :: 0 <= i < |data.transitions| ==> 0 <= data.transitions[i].localtimeIdx < |data.localtimes|
  }

  /** `std::lower_bound` on the elements from `first` to before `last`: keep the half with the bound. */
  function LowerBound(transitions: seq<Transition>, key: int, compareGmt: bool, first: nat, last: nat): (i: nat)
    requires first <= last <= |transitions|
    ensures first <= i <= last
    decreases last - first
  {
    if first == last then first
    else
      var middle := first + (last - first) / 2;
      if Key(transitions[middle], compareGmt) < key
      then LowerBound(transitions, key, compareGmt, middle + 1, last)
      else LowerBound(transitions, key, compareGmt, first, middle)
  }

  function FindLocaltime(data: Data, sentry: Transition, compareGmt: bool): Localtime
    requires TableOk(data)
  {
    var trs := data.transitions;
    var key := Key(sentry, compareGmt);
    if |trs| == 0 || key < Key(trs[0], compareGmt) then
      data.localtimes[0]
    else
      var i := LowerBound(trs, key, compareGmt, 0, |trs|);
      if i == |trs| then data.localtimes[trs[|trs| - 1].localtimeIdx]
      else if key != Key(trs[i], compareGmt) && i > 0 then data.localtimes[trs[i - 1].localtimeIdx]
      else data.localtimes[trs[i].localtimeIdx]
  }

  function ToLocalTime(data: Data, seconds: int): Tm
    requires TableOk(data)
  {
    var local := FindLocaltime(data, Transition(seconds, 0, 0), true);
    ToUtcTime(seconds + local.gmtOffset, true)
      .(isdst := if local.isDst then 1 else 0, gmtoff := local.gmtOffset)
  }

  function FromLocalTime(data: Data, localTm: Tm): int
    requires TableOk(data)
  {
    var seconds := FromUtcTime(localTm);
    var local := FindLocaltime(data, Transition(0, seconds, 0), false);
    var tryTm := ToLocalTime(data, seconds - local.gmtOffset);
    if localTm.isdst != 0 && tryTm.isdst == 0 && tryTm.hour == localTm.hour && tryTm.min == localTm.min
    then seconds - 3600 - local.gmtOffset
    else seconds - local.gmtOffset
  }

  /** The loop of `readTimeZoneFile` that fills the transition table from the file's columns. */
  method BuildTransitions(trans: seq<int>, idx: seq<int>, localtimes: seq<Localtime>) returns (data: Data)
    requires |trans| == |idx| && |localtimes| > 0
    requires forall i :: 0 <= i < |idx| ==> 0 <= idx[i] < |localtimes|
    ensures TableOk(data) && data.localtimes == localtimes && |data.transitions| == |trans|
    ensures forall i :: 0 <= i < |trans| ==>
              data.transitions[i] == Transition(trans[i], trans[i] + localtimes[idx[i]].gmtOffset, idx[i])
    ensures Consistent(data)
  {
    var transitions: seq<Transition> := [];
    for i := 0 to |trans|
      invariant |transitions| == i
      invariant forall k :: 0 <= k < i ==>
                  transitions[k] == Transition(trans[k], trans[k] + localtimes[idx[k]].gmtOffset, idx[k])
    {
      var localIdx := idx[i];
      var localtime := trans[i] + localtimes[localIdx].gmtOffset;
      transitions := transitions + [Transition(trans[i], localtime, localIdx)];
    }
    data := Data(transitions, localtimes);
  }

  // ---------------------------------------------------------------------------------------
  // Segments: the stretches of time between transitions. Segment -1 precedes the first one.

  function Segment(data: Data, k: int): Localtime
    requires TableOk(data) && -1 <= k < |data.transitions|
  {
    if k == -1 then data.localtimes[0] else data.localtimes[data.transitions[k].localtimeIdx]
  }

  /** Local times of the table are the ones `BuildTransitions` computes. */
  predicate Consistent(data: Data)
    requires TableOk(data)
  {
    forall i :: 0 <= i < |data.transitions| ==>
                  data.transitions[i].localtime == data.transitions[i].gmttime + Segment(data, i).gmtOffset
  }

  predicate Increasing(trs: seq<Transition>, compareGmt: bool)
  {
    forall i, j :: 0 <= i < j < |trs| ==> Key(trs[i], compareGmt) < Key(trs[j], compareGmt)
  }

  /** Time `v`, on the clock chosen by `compareGmt`, falls into segment `k`. */
  predicate InSegment(data: Data, compareGmt: bool, v: int, k: int)
  {
    && -1 <= k < |data.transitions|
    && (k >= 0 ==> Key(data.transitions[k], compareGmt) <= v)
    && (k + 1 < |data.transitions| ==> v < Key(data.transitions[k + 1], compareGmt))
  }

  /** Seconds the local clock is set back at transition `k`; 0 when it is not. */
  function Fold(data: Data, k: int): nat
    requires TableOk(data) && 0 <= k < |data.transitions|
  {
    var drop := Segment(data, k - 1).gmtOffset - Segment(data, k).gmtOffset;
    if drop > 0 then drop else 0
  }

  /** Every segment between two transitions outlasts the folds at both its ends. */
  predicate Spaced(data: Data)
    requires TableOk(data)
  {
    forall k :: 0 < k < |data.transitions| ==>
                  data.transitions[k].gmttime - data.transitions[k - 1].gmttime > Fold(data, k - 1) + Fold(data, k)
  }

  /** The clock goes back from DST to standard time by an hour. */
  predicate DstFold(data: Data, k: int)
    requires TableOk(data) && 0 <= k < |data.transitions|
  {
    Segment(data, k - 1).isDst && !Segment(data, k).isDst && Fold(data, k) == 3600
  }

  predicate FoldsAreDst(data: Data)
    requires TableOk(data)
  {
    forall k :: 0 <= k < |data.transitions| && Fold(data, k) > 0 ==> DstFold(data, k)
  }

  predicate ZoneOk(data: Data)
  {
    TableOk(data) && Consistent(data) && Spaced(data)
  }

  /** The elements before `lo` are below the key, those from `hi` on are not. */
  predicate Brackets(trs: seq<Transition>, key: int, compareGmt: bool, lo: int, hi: int)
  {
    && (forall k :: 0 <= k < lo && k < |trs| ==> Key(trs[k], compareGmt) < key)
    && (forall k :: 0 <= k && hi <= k < |trs| ==> Key(trs[k], compareGmt) >= key)
  }

  lemma {:induction false} LowerBoundIsBound(trs: seq<Transition>, key: int, compareGmt: bool, first: nat, last: nat)
    requires first <= last <= |trs| && Increasing(trs, compareGmt)
    requires Brackets(trs, key, compareGmt, first, last)
    ensures var i := LowerBound(trs, key, compareGmt, first, last); Brackets(trs, key, compareGmt, i, i)
    decreases last - first
  {
    hide Brackets, Key, Increasing;
    if first < last {
      var middle := first + (last - first) / 2;
      NarrowBracket(trs, key, compareGmt, first, middle, last);
      if Key(trs[middle], compareGmt) < key {
        LowerBoundIsBound(trs, key, compareGmt, middle + 1, last);
      } else {
        LowerBoundIsBound(trs, key, compareGmt, first, middle);
      }
    }
  }

  lemma NarrowBracket(trs: seq<Transition>, key: int, compareGmt: bool, lo: nat, mid: nat, hi: nat)
    requires lo <= mid < hi <= |trs| && Increasing(trs, compareGmt)
    requires Brackets(trs, key, compareGmt, lo, hi)
    ensures if Key(trs[mid], compareGmt) < key then Brackets(trs, key, compareGmt, mid + 1, hi)
            else Brackets(trs, key, compareGmt, lo, mid)
  {
  }

  /** In an increasing table the lookup answers with the segment that contains the key. */
  lemma FindsSegment(data: Data, sentry: Transition, compareGmt: bool, k: int)
    requires TableOk(data) && Increasing(data.transitions, compareGmt)
    requires InSegment(data, compareGmt, Key(sentry, compareGmt), k)
    ensures FindLocaltime(data, sentry, compareGmt) == Segment(data, k)
  {
    hide LowerBound;
    var trs, key := data.transitions, Key(sentry, compareGmt);
    LowerBoundIsBound(trs, key, compareGmt, 0, |trs|);
    var i := LowerBound(trs, key, compareGmt, 0, |trs|);
    if k + 1 < |trs| {
      BoundSeparates(trs, key, compareGmt, i, k + 1);
    }
    if k >= 0 {
      BoundSeparates(trs, key, compareGmt, i, k);
    }
    if k >= 1 {
      assert Key(trs[k - 1], compareGmt) < Key(trs[k], compareGmt);
      BoundSeparates(trs, key, compareGmt, i, k - 1);
    }
    assert i == k + 1 || (i == k && key == Key(trs[i], compareGmt));
  }

  lemma BoundSeparates(trs: seq<Transition>, key: int, compareGmt: bool, i: int, j: int)
    requires Brackets(trs, key, compareGmt, i, i) && 0 <= j < |trs|
    ensures j < i <==> Key(trs[j], compareGmt) < key
  {
  }

  lemma {:induction false} SegmentExists(data: Data, t: int, n: nat) returns (k: int)
    requires n <= |data.transitions|
    requires n < |data.transitions| ==> t < data.transitions[n].gmttime
    ensures InSegment(data, true, t, k)
  {
    if n == 0 || data.transitions[n - 1].gmttime <= t {
      k := n - 1;
    } else {
      k := SegmentExists(data, t, n - 1);
    }
  }

  lemma {:induction false} StepwiseIncreasing(trs: seq<Transition>, compareGmt: bool)
    requires forall k :: 0 < k < |trs| ==> Key(trs[k - 1], compareGmt) < Key(trs[k], compareGmt)
    ensures Increasing(trs, compareGmt)
  {
    if |trs| > 0 {
      var init := trs[..|trs| - 1];
      StepwiseIncreasing(init, compareGmt);
      forall i, j | 0 <= i < j < |trs| ensures Key(trs[i], compareGmt) < Key(trs[j], compareGmt) {
        assert init[i] == trs[i];
        if j == |trs| - 1 && i < j - 1 {
          assert init[j - 1] == trs[j - 1];
        } else if j < |trs| - 1 {
          assert init[j] == trs[j];
        }
      }
    }
  }

  /** In a spaced zone the table increases on both clocks. */
  lemma ZoneIncreases(data: Data)
    requires ZoneOk(data)
    ensures Increasing(data.transitions, true) && Increasing(data.transitions, false)
  {
    StepwiseIncreasing(data.transitions, true);
    StepwiseIncreasing(data.transitions, false);
  }

  // ---------------------------------------------------------------------------------------
  // Main results: local time read back.

  /** Time `t` of segment `k` has a local time that occurs again after the next transition. */
  predicate InFold(data: Data, t: int, k: int)
    requires TableOk(data) && -1 <= k < |data.transitions|
  {
    k + 1 < |data.transitions| && t >= data.transitions[k + 1].gmttime - Fold(data, k + 1)
  }

  /**
    Which times read back: all but those repeated by a fold that is not a DST-to-standard step of
    an hour. The last part of such a segment is lost, whatever the zone.
   */
  lemma LocalRoundTripAt(data: Data, t: int, k: int)
    requires ZoneOk(data) && InSegment(data, true, t, k)
    requires InUtcRange(t + Segment(data, k).gmtOffset)
    ensures FromLocalTime(data, ToLocalTime(data, t)) == t
       <==> (InFold(data, t, k) ==> DstFold(data, k + 1))
  {
    hide ToUtcTime, FromUtcTime, FindLocaltime, Spaced, ValidTm, InUtcRange;
    ZoneIncreases(data);
    FindsSegment(data, Transition(t, 0, 0), true, k);
    var local := t + Segment(data, k).gmtOffset;
    UtcRoundTrip(local, true);
    LocalFieldsOnly(data, t);
    if InFold(data, t, k) {
      FoldedTime(data, t, k);
    } else {
      UnfoldedTime(data, t, k);
    }
  }

  /** `FromUtcTime` does not read the fields `ToLocalTime` adds. */
  lemma LocalFieldsOnly(data: Data, t: int)
    requires TableOk(data)
    ensures FromUtcTime(ToLocalTime(data, t))
         == FromUtcTime(ToUtcTime(t + FindLocaltime(data, Transition(t, 0, 0), true).gmtOffset, true))
  {
    hide ToUtcTime, GetJulianDayNumber, FindLocaltime;
  }

  /**
    The fields of an instant in segment `k` are those of the clock that is ahead of UTC by the
    segment's offset, with the offset and the daylight saving of the segment.
   */
  lemma LocalFields(data: Data, t: int, k: int)
    requires TableOk(data) && Increasing(data.transitions, true) && InSegment(data, true, t, k)
    requires InUtcRange(t + Segment(data, k).gmtOffset)
    ensures var tm, local := ToLocalTime(data, t), t + Segment(data, k).gmtOffset;
            && FromUtcTime(tm) == local && ValidTm(tm)
            && tm.gmtoff == Segment(data, k).gmtOffset && tm.isdst == (if Segment(data, k).isDst then 1 else 0)
            && (local >= (GetJulianDayNumber(-4799, 1, 1) - JULIAN_DAY_OF_1970_01_01) * SECONDS_PER_DAY <==>
                  tm.yday == DaysBeforeMonth(tm.year + 1900, tm.mon + 1) + tm.mday - 1)
            && (tm.wday == (4 + local / SECONDS_PER_DAY) % 7 <==> DayOf(local) >= -1 || (DayOf(local) + 1) % 7 == 0)
  {
    hide ToUtcTime, FindLocaltime, FromUtcTime, GetJulianDayNumber, DaysBeforeMonth, ValidDate;
    FindsSegment(data, Transition(t, 0, 0), true, k);
    var local := t + Segment(data, k).gmtOffset;
    LocalFieldsOnly(data, t);
    UtcRoundTrip(local, true);
    UtcDayOfYear(local);
    UtcWeekDay(local, true);
  }

  /**
    Standard time is read by the segment that contains it on the local clock, where the times that
    a step forward skips belong to the segment before the step.
   */
  lemma StandardTimeRead(data: Data, tm: Tm, k: int)
    requires TableOk(data) && Increasing(data.transitions, false) && tm.isdst == 0
    requires InSegment(data, false, FromUtcTime(tm), k)
    ensures FromLocalTime(data, tm) == FromUtcTime(tm) - Segment(data, k).gmtOffset
  {
    hide FindLocaltime, FromUtcTime, ToLocalTime;
    FindsSegment(data, Transition(0, FromUtcTime(tm), 0), false, k);
  }

  /**
    Daylight saving time is read by the segment it lies in, if that has daylight saving; where it has
    not, the retry takes the time to be an hour ahead.
   */
  lemma DaylightTimeRead(data: Data, tm: Tm, k: int)
    requires TableOk(data) && Increasing(data.transitions, false) && Increasing(data.transitions, true)
    requires tm.isdst != 0 && ValidTm(tm) && InCalendar(DateOf(tm))
    requires InSegment(data, false, FromUtcTime(tm), k)
    requires InSegment(data, true, FromUtcTime(tm) - Segment(data, k).gmtOffset, k)
    ensures FromLocalTime(data, tm)
         == FromUtcTime(tm) - Segment(data, k).gmtOffset - if Segment(data, k).isDst then 0 else 3600
  {
    hide FindLocaltime, FromUtcTime, ToLocalTime, ValidTm, InCalendar, Increasing;
    var local := FromUtcTime(tm);
    FindsSegment(data, Transition(0, local, 0), false, k);
    RetryShows(data, tm, local - Segment(data, k).gmtOffset, k);
  }

  lemma RetryShows(data: Data, tm: Tm, t: int, k: int)
    requires TableOk(data) && Increasing(data.transitions, true) && InSegment(data, true, t, k)
    requires ValidTm(tm) && InCalendar(DateOf(tm)) && t + Segment(data, k).gmtOffset == FromUtcTime(tm)
    ensures var shown := ToLocalTime(data, t);
            shown.hour == tm.hour && shown.min == tm.min && (shown.isdst != 0 <==> Segment(data, k).isDst)
  {
    hide FindLocaltime, FromUtcTime, ToUtcTime, ValidTm, InCalendar, Increasing;
    FindsSegment(data, Transition(t, 0, 0), true, k);
    UtcFieldsRoundTrip(tm, true);
  }

  /** Outside a fold the local key selects the segment the GMT key selected. */
  lemma UnfoldedTime(data: Data, t: int, k: int)
    requires ZoneOk(data) && InSegment(data, true, t, k) && !InFold(data, t, k)
    requires Increasing(data.transitions, true) && Increasing(data.transitions, false)
    requires FindLocaltime(data, Transition(t, 0, 0), true) == Segment(data, k)
    requires FromUtcTime(ToLocalTime(data, t)) == t + Segment(data, k).gmtOffset
    ensures FromLocalTime(data, ToLocalTime(data, t)) == t
  {
    hide ToUtcTime, FromUtcTime, FindLocaltime;
    var local := t + Segment(data, k).gmtOffset;
    assert InSegment(data, false, local, k);
    FindsSegment(data, Transition(0, local, 0), false, k);
  }

  /** Inside a fold the local key selects the next segment; the retry may come back. */
  lemma FoldedTime(data: Data, t: int, k: int)
    requires ZoneOk(data) && InSegment(data, true, t, k) && InFold(data, t, k)
    requires Increasing(data.transitions, true) && Increasing(data.transitions, false)
    requires FindLocaltime(data, Transition(t, 0, 0), true) == Segment(data, k)
    requires FromUtcTime(ToLocalTime(data, t)) == t + Segment(data, k).gmtOffset
    ensures FromLocalTime(data, ToLocalTime(data, t)) == t <==> DstFold(data, k + 1)
  {
    hide ToUtcTime, FromUtcTime, FindLocaltime;
    var local := t + Segment(data, k).gmtOffset;
    var retry := local - Segment(data, k + 1).gmtOffset;
    assert Fold(data, k + 1) > 0 && retry == t + Fold(data, k + 1);
    assert InSegment(data, false, local, k + 1);
    FindsSegment(data, Transition(0, local, 0), false, k + 1);
    assert InSegment(data, true, retry, k + 1);
    FindsSegment(data, Transition(retry, 0, 0), true, k + 1);
  }

  /** Transition times and offsets are read as 32-bit integers. */
  predicate FileRange(data: Data)
    requires TableOk(data)
  {
    && (forall i :: 0 <= i < |data.transitions| ==> Int32(data.transitions[i].gmttime))
    && (forall i :: 0 <= i < |data.localtimes| ==> Int32(data.localtimes[i].gmtOffset))
  }

  /** Every time whose local time lies in the calendar's range reads back. */
  ghost predicate RoundTrips(data: Data)
    requires TableOk(data)
  {
    forall t :: InUtcRange(t + FindLocaltime(data, Transition(t, 0, 0), true).gmtOffset) ==>
                  FromLocalTime(data, ToLocalTime(data, t)) == t
  }

  /**
    A zone read from a file reads back all local times, the ambiguous ones included, if and only if
    each time the clock goes back it does so by an hour, from DST to standard time.
   */
  lemma LocalRoundTrip(data: Data)
    requires ZoneOk(data) && FileRange(data)
    ensures RoundTrips(data) <==> FoldsAreDst(data)
  {
    hide RoundTrips, Spaced, Consistent;
    if FoldsAreDst(data) {
      ReadsBack(data);
    } else {
      var k :| 0 <= k < |data.transitions| && Fold(data, k) > 0 && !DstFold(data, k);
      LostSecond(data, k);
    }
  }

  lemma ReadsBack(data: Data)
    requires ZoneOk(data) && FoldsAreDst(data)
    ensures RoundTrips(data)
  {
    hide ToLocalTime, FromLocalTime, FindLocaltime, InUtcRange, Spaced, Consistent;
    ZoneIncreases(data);
    forall t | InUtcRange(t + FindLocaltime(data, Transition(t, 0, 0), true).gmtOffset)
      ensures FromLocalTime(data, ToLocalTime(data, t)) == t
    {
      var k := SegmentExists(data, t, |data.transitions|);
      FindsSegment(data, Transition(t, 0, 0), true, k);
      LocalRoundTripAt(data, t, k);
    }
  }

  /** The second before any other fold does not read back. */
  lemma LostSecond(data: Data, k: int)
    requires ZoneOk(data) && FileRange(data)
    requires 0 <= k < |data.transitions| && Fold(data, k) > 0 && !DstFold(data, k)
    ensures !RoundTrips(data)
  {
    hide ToLocalTime, FromLocalTime, FindLocaltime, InUtcRange, Spaced, Consistent;
    var t := data.transitions[k].gmttime - 1;
    ZoneIncreases(data);
    assert InSegment(data, true, t, k - 1);
    FindsSegment(data, Transition(t, 0, 0), true, k - 1);
    FileTimesInRange(t, Segment(data, k - 1).gmtOffset);
    LocalRoundTripAt(data, t, k - 1);
    assert FromLocalTime(data, ToLocalTime(data, t)) != t;
  }

  /** A zone that sets its clock back half an hour outside daylight saving: an instant is lost. */
  lemma HalfHourZone()
    ensures var data := Data([Transition(0, 0, 1)], [Localtime(1800, false, 0), Localtime(0, false, 1)]);
            ZoneOk(data) && FileRange(data) && !RoundTrips(data)
  {
    var data := Data([Transition(0, 0, 1)], [Localtime(1800, false, 0), Localtime(0, false, 1)]);
    assert Fold(data, 0) == 1800 && !DstFold(data, 0);
    LostSecond(data, 0);
  }

  lemma FileTimesInRange(t: int, offset: int)
    requires Int32(t + 1) && Int32(offset)
    ensures InUtcRange(t + offset)
  {
  }

  /**
    Zones as they are: transitions more than an hour apart, and the clock only ever set back by
    the hour that ends daylight saving. Their local times all read back.
   */
  lemma OrdinaryZone(data: Data)
    requires TableOk(data) && Consistent(data) && FileRange(data)
    requires forall k :: 0 < k < |data.transitions| ==>
                           data.transitions[k].gmttime - data.transitions[k - 1].gmttime > 3600
    requires FoldsAreDst(data)
    ensures ZoneOk(data) && RoundTrips(data)
  {
    forall k | 0 < k < |data.transitions|
      ensures data.transitions[k].gmttime - data.transitions[k - 1].gmttime > Fold(data, k - 1) + Fold(data, k)
    {
      // Two folds in a row would need segment k - 1 to be both standard and daylight saving time.
      assert Fold(data, k - 1) == 0 || Fold(data, k) == 0;
    }
    ReadsBack(data);
  }
}
