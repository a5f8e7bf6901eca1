/**
 * The time-bucketing engine (src/utils/dateUtils.ts): weekly progress, the
 * seven day totals of the current week, the 24 hour-of-day totals, the
 * 7 x 24 day-by-hour heat map and the two duration formatters.
 *
 * A timestamp is a whole number of seconds since a Monday 00:00 local epoch
 * without daylight-saving shifts, so every day has 86400 seconds and every
 * week starts on a multiple of 604800. The reference instant `now` is a
 * parameter. Aggregates are kept in seconds: the final conversions to
 * minutes or hours and the rounding to 2 or 4 decimals are left out.
 */
module DateUtils {
  import opened Types
  import opened Decimal
  import Seqs

  const MinuteSeconds := 60
  const HourSeconds := 3600
  const DaySeconds := 86400
  const WeekSeconds := 604800

  // ---------------------------------------------------------------------
  // Calendar fields of a local timestamp (Date.getHours and friends)
  // ---------------------------------------------------------------------

  function HourOf(t: int): (h: nat)
    ensures h < 24
  {
    (t / HourSeconds) % 24
  }

  function MinuteOf(t: int): (m: nat)
    ensures m < 60
  {
    (t / MinuteSeconds) % 60
  }

  function SecondOf(t: int): (s: nat)
    ensures s < 60
  {
    t % MinuteSeconds
  }

  /** Monday = 0 .. Sunday = 6, the value of (getDay() + 6) % 7. */
  function DayOfWeek(t: int): (d: nat)
    ensures d < 7
  {
    (t / DaySeconds) % 7
  }

  /** The clock fields recompose the time of day. */
  lemma ClockFields(t: int)
    ensures t % HourSeconds == 60 * MinuteOf(t) + SecondOf(t)
    ensures t % DaySeconds == 3600 * HourOf(t) + 60 * MinuteOf(t) + SecondOf(t)
  {
    var q := t / 60;
    var q2 := q / 60;
    var q3 := q2 / 24;
    assert t == 60 * q + SecondOf(t);
    assert q == 60 * q2 + MinuteOf(t);
    assert q2 == 24 * q3 + HourOf(t);
    assert t == 3600 * q2 + 60 * MinuteOf(t) + SecondOf(t);
    assert t / 3600 == q2;
    assert t == 86400 * q3 + 3600 * HourOf(t) + 60 * MinuteOf(t) + SecondOf(t);
  }

  /** Euclidean division is determined by a quotient and a remainder in range. */
  lemma DivOf(x: int, d: int, q: int, r: int)
    requires 0 < d && 0 <= r < d && x == q * d + r
    ensures x / d == q && x % d == r
  {
    var q', r' := x / d, x % d;
    assert q' * d + r' == x;
    assert (q - q') * d == q * d - q' * d;
    if q > q' {
      MulAtLeast(q - q', d);
    } else if q < q' {
      MulAtLeast(q' - q, d);
    }
  }

  lemma {:induction false} MulAtLeast(a: int, d: int)
    requires a >= 1 && d > 0
    ensures a * d >= d
    decreases a
  {
    if a > 1 {
      MulAtLeast(a - 1, d);
      assert a * d == (a - 1) * d + d;
    }
  }

  // ---------------------------------------------------------------------
  // The current week (startOfWeek / endOfWeek with weekStartsOn: 1)
  // ---------------------------------------------------------------------

  /** Monday 00:00:00 of the week that contains now. */
  function WeekStart(now: int): (ws: int)
    ensures ws <= now < ws + WeekSeconds
    ensures ws % WeekSeconds == 0
    ensures DayOfWeek(ws) == 0 && HourOf(ws) == 0 && MinuteOf(ws) == 0 && SecondOf(ws) == 0
  {
    var k := now / WeekSeconds;
    assert (k * WeekSeconds) / DaySeconds == 7 * k;
    assert (k * WeekSeconds) / HourSeconds == 168 * k;
    assert (k * WeekSeconds) / MinuteSeconds == 10080 * k;
    k * WeekSeconds
  }

  /** Sunday 23:59:59 of the week that contains now (the last whole second
      before the next Monday). */
  function WeekEnd(now: int): (we: int)
    ensures WeekStart(now) <= now <= we
    ensures we + 1 == WeekStart(now) + WeekSeconds
    ensures DayOfWeek(we) == 6 && HourOf(we) == 23 && MinuteOf(we) == 59 && SecondOf(we) == 59
  {
    var ws := WeekStart(now);
    var k := ws / WeekSeconds;
    var we := ws + WeekSeconds - 1;
    assert ws == k * WeekSeconds;
    DivOf(we, DaySeconds, 7 * k + 6, 86399);
    DivOf(7 * k + 6, 7, k, 6);
    DivOf(we, HourSeconds, 168 * k + 167, 3599);
    DivOf(168 * k + 167, 24, 7 * k + 6, 23);
    DivOf(we, MinuteSeconds, 10080 * k + 10079, 59);
    DivOf(10080 * k + 10079, 60, 168 * k + 167, 59);
    we
  }

  // ---------------------------------------------------------------------
  // Session filters and sums
  // ---------------------------------------------------------------------

  /** isWithinInterval(session.startTime, { start: lo, end: hi }): closed at both ends. */
  predicate StartsWithin(s: Session, lo: int, hi: int) {
    lo <= s.startTime <= hi
  }

  function StartingWithin(sessions: seq<Session>, lo: int, hi: int): (r: seq<Session>)
    ensures forall s :: s in r <==> s in sessions && lo <= s.startTime <= hi
  {
    Seqs.Filter(sessions, Within(lo, hi))
  }

  function Within(lo: int, hi: int): Session -> bool {
    s => StartsWithin(s, lo, hi)
  }

  /** sessions.reduce((sum, s) => sum + s.duration, 0) */
  function TotalDuration(sessions: seq<Session>): int
    decreases |sessions|
  {
    if sessions == [] then 0
    else TotalDuration(sessions[..|sessions| - 1]) + sessions[|sessions| - 1].duration
  }

  /** The sum read from the front, as `reduce` accumulates it: the first
      duration plus the sum of the rest. */
  lemma TotalDurationFromFront(sessions: seq<Session>)
    requires sessions != []
    ensures TotalDuration(sessions) == sessions[0].duration + TotalDuration(sessions[1..])
  {
    assert sessions == [sessions[0]] + sessions[1..];
    TotalDurationAppend([sessions[0]], sessions[1..]);
    assert [sessions[0]][..0] == [];
  }

  lemma {:induction false} TotalDurationAppend(a: seq<Session>, b: seq<Session>)
    ensures TotalDuration(a + b) == TotalDuration(a) + TotalDuration(b)
    decreases |b|
  {
    if b == [] {
      assert a + b == a;
    } else {
      assert (a + b)[..|a + b| - 1] == a + b[..|b| - 1];
      TotalDurationAppend(a, b[..|b| - 1]);
    }
  }

  /** Durations of sessions that cannot be negative never sum to less than zero. */
  lemma {:induction false} TotalDurationNonNegative(sessions: seq<Session>)
    requires forall i :: 0 <= i < |sessions| ==> sessions[i].duration >= 0
    ensures TotalDuration(sessions) >= 0
    decreases |sessions|
  {
    if sessions != [] {
      TotalDurationNonNegative(sessions[..|sessions| - 1]);
    }
  }

  // ---------------------------------------------------------------------
  // getWeeklyProgress
  // ---------------------------------------------------------------------

  function Hours(seconds: int): real {
    seconds as real / 3600.0
  }

  datatype WeeklyProgress = WeeklyProgress(
    totalSeconds: int,
    percentage: real,
    remainingHours: real,
    weekStart: int,
    weekEnd: int)

  /** Progress of the current week towards a goal given in hours. The
      settings form lets any number be saved as the goal: a negative one, or
      0 when the field is emptied. With a zero goal and some time this week,
      the ratio is +Infinity, which the code clamps to 100 %. A zero goal
      with no time (NaN) or with a negative total (-Infinity) is excluded. */
  function GetWeeklyProgress(sessions: seq<Session>, weeklyGoal: real, now: int): (r: WeeklyProgress)
    requires weeklyGoal != 0.0 || TotalDuration(StartingWithin(sessions, WeekStart(now), WeekEnd(now))) > 0
    ensures r.weekStart == WeekStart(now) && r.weekEnd == WeekEnd(now)
    ensures r.totalSeconds == TotalDuration(StartingWithin(sessions, r.weekStart, r.weekEnd))
    ensures r.percentage <= 100.0 && r.remainingHours >= 0.0
    ensures weeklyGoal > 0.0 && Hours(r.totalSeconds) >= weeklyGoal ==>
      r.percentage == 100.0 && r.remainingHours == 0.0
    ensures weeklyGoal > 0.0 && Hours(r.totalSeconds) < weeklyGoal ==>
      r.percentage == 100.0 * Hours(r.totalSeconds) / weeklyGoal &&
      r.remainingHours == weeklyGoal - Hours(r.totalSeconds)
    ensures weeklyGoal > 0.0 && r.totalSeconds >= 0 ==> r.percentage >= 0.0
    ensures weeklyGoal < 0.0 && r.totalSeconds >= 0 ==>
      r.percentage == 100.0 * Hours(r.totalSeconds) / weeklyGoal &&
      r.percentage <= 0.0 && r.remainingHours == 0.0
    ensures weeklyGoal == 0.0 ==> r.percentage == 100.0 && r.remainingHours == 0.0
  {
    var ws, we := WeekStart(now), WeekEnd(now);
    var totalSeconds := TotalDuration(StartingWithin(sessions, ws, we));
    var totalHours := Hours(totalSeconds);
    if weeklyGoal == 0.0 then
      WeeklyProgress(totalSeconds, 100.0, 0.0, ws, we)
    else
      var ratio := totalHours / weeklyGoal * 100.0;
      GoalRatio(totalHours, weeklyGoal);
      WeeklyProgress(
        totalSeconds,
        if ratio < 100.0 then ratio else 100.0,
        if weeklyGoal - totalHours > 0.0 then weeklyGoal - totalHours else 0.0,
        ws, we)
  }

  lemma GoalRatio(total: real, goal: real)
    requires goal != 0.0
    ensures goal > 0.0 ==> (total / goal * 100.0 < 100.0 <==> total < goal)
    ensures total / goal * 100.0 == 100.0 * total / goal
    ensures goal > 0.0 && total >= 0.0 ==> total / goal >= 0.0
    ensures goal < 0.0 && total >= 0.0 ==> total / goal <= 0.0
  {
    if goal > 0.0 {
      var q := total / goal;
      assert q * goal == total;
      assert q < 1.0 <==> q * goal < goal;
    } else {
      var q := total / -goal;
      assert q * -goal == total;
      assert total / goal == -q;
      assert 100.0 * total / goal == -(100.0 * total / -goal);
      assert 100.0 * total / -goal == q * 100.0;
    }
  }

  // ---------------------------------------------------------------------
  // getDailyStats
  // ---------------------------------------------------------------------

  datatype DayTotal = DayTotal(dayStart: int, seconds: int)

  /** Midnight that starts day i (0 = Monday) of the week starting at ws. */
  function DayStart(ws: int, i: int): int {
    ws + i * 86400
  }

  /** One day's bar: the sessions starting in [dayStart, dayStart + 1 day],
      both ends included. */
  function DayTotalAt(sessions: seq<Session>, dayStart: int): DayTotal {
    DayTotal(dayStart, TotalDuration(StartingWithin(sessions, dayStart, dayStart + DaySeconds)))
  }

  /** The seven days Monday..Sunday of the current week. */
  function GetDailyStats(sessions: seq<Session>, now: int): (r: seq<DayTotal>)
    ensures |r| == 7
    ensures forall i :: 0 <= i < 7 ==>
      r[i].dayStart == DayStart(WeekStart(now), i) &&
      DayOfWeek(r[i].dayStart) == i && HourOf(r[i].dayStart) == 0
    ensures forall i :: 0 <= i < 7 ==>
      r[i].seconds == TotalDuration(StartingWithin(sessions, r[i].dayStart, r[i].dayStart + DaySeconds))
  {
    var ws := WeekStart(now);
    var r := seq(7, i requires 0 <= i < 7 => DayTotalAt(sessions, DayStart(ws, i)));
    assert forall i :: 0 <= i < 7 ==> r[i] == DayTotalAt(sessions, DayStart(ws, i));
    WeekDaysFields(ws);
    r
  }

  lemma WeekDaysFields(ws: int)
    requires ws % WeekSeconds == 0
    ensures forall i :: 0 <= i < 7 ==> DayOfWeek(DayStart(ws, i)) == i && HourOf(DayStart(ws, i)) == 0
  {
    forall i | 0 <= i < 7
      ensures DayOfWeek(DayStart(ws, i)) == i && HourOf(DayStart(ws, i)) == 0
    {
      DayStartFields(ws, i);
    }
  }

  lemma DayStartFields(ws: int, i: int)
    requires ws % WeekSeconds == 0 && 0 <= i < 7
    ensures DayOfWeek(DayStart(ws, i)) == i && HourOf(DayStart(ws, i)) == 0
  {
    var k := ws / WeekSeconds;
    assert DayStart(ws, i) == 86400 * (7 * k + i);
    assert DayStart(ws, i) / 86400 == 7 * k + i;
    assert DayStart(ws, i) / 3600 == 24 * (7 * k + i);
  }

  /** With no sessions every day is zero. */
  lemma DailyStatsEmpty(now: int, i: int)
    requires 0 <= i < 7
    ensures GetDailyStats([], now)[i].seconds == 0
  {
    var d := GetDailyStats([], now)[i];
    assert StartingWithin([], d.dayStart, d.dayStart + DaySeconds) == [];
  }

  /** A session that starts exactly at a midnight inside the week is counted
      on the day that ends there and on the day that starts there. */
  lemma DailyStatsMidnightCountedTwice(s: Session, now: int, i: int)
    requires 0 <= i < 6
    requires s.startTime == DayStart(WeekStart(now), i + 1)
    ensures GetDailyStats([s], now)[i].seconds == s.duration
    ensures GetDailyStats([s], now)[i + 1].seconds == s.duration
  {
    var r := GetDailyStats([s], now);
    assert StartingWithin([s], r[i].dayStart, r[i].dayStart + DaySeconds) == [s];
    assert StartingWithin([s], r[i + 1].dayStart, r[i + 1].dayStart + DaySeconds) == [s];
    assert [s][..0] == [];
    assert TotalDuration([s]) == s.duration;
  }

  /** Such a session is counted once in the weekly total. */
  lemma MidnightSessionCountedOnceInWeek(s: Session, now: int, i: int)
    requires 0 <= i < 6
    requires s.startTime == DayStart(WeekStart(now), i + 1)
    ensures TotalDuration(StartingWithin([s], WeekStart(now), WeekEnd(now))) == s.duration
  {
    var ws := WeekStart(now);
    assert ws <= s.startTime <= WeekEnd(now);
    assert StartingWithin([s], ws, WeekEnd(now)) == [s];
    assert [s][..0] == [];
  }

  /** A session that starts exactly at the next Monday's midnight is counted
      on Sunday's bar, yet it is outside the week and not in the weekly total. */
  lemma SundayIncludesNextMonday(s: Session, now: int)
    requires s.startTime == DayStart(WeekStart(now), 7)
    ensures GetDailyStats([s], now)[6].seconds == s.duration
    ensures TotalDuration(StartingWithin([s], WeekStart(now), WeekEnd(now))) == 0
  {
    var r := GetDailyStats([s], now);
    assert StartingWithin([s], r[6].dayStart, r[6].dayStart + DaySeconds) == [s];
    assert [s][..0] == [];
    assert TotalDuration([s]) == s.duration;
    assert StartingWithin([s], WeekStart(now), WeekEnd(now)) == [];
  }

  /** Time of the sessions starting in [lo, hi], summed without building the
      filtered list. */
  function WindowTotal(sessions: seq<Session>, lo: int, hi: int): int
    decreases |sessions|
  {
    if sessions == [] then 0
    else
      var last := sessions[|sessions| - 1];
      WindowTotal(sessions[..|sessions| - 1], lo, hi) + (if lo <= last.startTime <= hi then last.duration else 0)
  }

  /** Summing the filtered list and summing in place agree. */
  lemma {:induction false} WindowTotalFiltered(sessions: seq<Session>, lo: int, hi: int)
    ensures TotalDuration(StartingWithin(sessions, lo, hi)) == WindowTotal(sessions, lo, hi)
    decreases |sessions|
  {
    if sessions != [] {
      var init, last := sessions[..|sessions| - 1], sessions[|sessions| - 1];
      assert init + [last] == sessions;
      WindowTotalFiltered(init, lo, hi);
      WindowSnoc(init, last, lo, hi);
    }
  }

  lemma WindowSnoc(sessions: seq<Session>, s: Session, lo: int, hi: int)
    ensures TotalDuration(StartingWithin(sessions + [s], lo, hi)) ==
      TotalDuration(StartingWithin(sessions, lo, hi)) + (if lo <= s.startTime <= hi then s.duration else 0)
  {
    var f := StartingWithin(sessions, lo, hi);
    var g := StartingWithin([s], lo, hi);
    assert StartingWithin(sessions + [s], lo, hi) == f + g by {
      Seqs.FilterAppend(sessions, [s], Within(lo, hi));
    }
    TotalDurationAppend(f, g);
    assert TotalDuration(g) == if lo <= s.startTime <= hi then s.duration else 0 by {
      assert [s][..0] == [];
      if lo <= s.startTime <= hi {
        assert g == [s];
      } else {
        assert g == [];
      }
    }
  }

  /** Splitting a window at mid splits the time counted in it. */
  lemma {:induction false} SplitWindow(sessions: seq<Session>, lo: int, mid: int, hi: int)
    requires lo <= mid <= hi + 1
    ensures WindowTotal(sessions, lo, mid - 1) + WindowTotal(sessions, mid, hi) == WindowTotal(sessions, lo, hi)
    decreases |sessions|
  {
    if sessions != [] {
      SplitWindow(sessions[..|sessions| - 1], lo, mid, hi);
    }
  }

  /** One day's total with a half-open window [dayStart, dayStart + 1 day). */
  function HalfOpenDay(sessions: seq<Session>, dayStart: int): DayTotal {
    DayTotal(dayStart, TotalDuration(StartingWithin(sessions, dayStart, dayStart + DaySeconds - 1)))
  }

  /** The same day, summed in place. */
  function WindowDay(sessions: seq<Session>, dayStart: int): DayTotal {
    DayTotal(dayStart, WindowTotal(sessions, dayStart, dayStart + DaySeconds - 1))
  }

  lemma WindowDayIsHalfOpenDay(sessions: seq<Session>, dayStart: int)
    ensures WindowDay(sessions, dayStart) == HalfOpenDay(sessions, dayStart)
  {
    WindowTotalFiltered(sessions, dayStart, dayStart + DaySeconds - 1);
  }

  /** The first n half-open days from ws on. */
  function HalfOpenDays(sessions: seq<Session>, ws: int, n: nat): (r: seq<DayTotal>)
    ensures |r| == n
    ensures forall i :: 0 <= i < n ==> r[i] == WindowDay(sessions, DayStart(ws, i))
  {
    seq(n, i requires 0 <= i < n => WindowDay(sessions, DayStart(ws, i)))
  }

  /** The day totals with half-open windows [dayStart, dayStart + 1 day):
      each session is counted on one day only. */
  function GetDailyStatsHalfOpen(sessions: seq<Session>, now: int): (r: seq<DayTotal>)
    ensures |r| == 7
    ensures forall i :: 0 <= i < 7 ==>
      r[i].dayStart == DayStart(WeekStart(now), i) &&
      r[i].seconds == TotalDuration(StartingWithin(sessions, r[i].dayStart, r[i].dayStart + DaySeconds - 1))
  {
    var ws := WeekStart(now);
    var r := seq(7, i requires 0 <= i < 7 => HalfOpenDay(sessions, DayStart(ws, i)));
    assert forall i :: 0 <= i < 7 ==> r[i] == HalfOpenDay(sessions, DayStart(ws, i));
    r
  }

  function DaysTotal(days: seq<DayTotal>): int
    decreases |days|
  {
    if days == [] then 0 else DaysTotal(days[..|days| - 1]) + days[|days| - 1].seconds
  }

  /** With half-open days the seven bars add up to the weekly total. */
  lemma HalfOpenDaysPartitionWeek(sessions: seq<Session>, now: int)
    ensures DaysTotal(GetDailyStatsHalfOpen(sessions, now)) ==
      TotalDuration(StartingWithin(sessions, WeekStart(now), WeekEnd(now)))
  {
    var ws := WeekStart(now);
    assert WeekEnd(now) == DayStart(ws, 7) - 1;
    var r, q := GetDailyStatsHalfOpen(sessions, now), HalfOpenDays(sessions, ws, 7);
    forall i | 0 <= i < 7
      ensures r[i] == q[i]
    {
      WindowDayIsHalfOpenDay(sessions, DayStart(ws, i));
    }
    assert r == q;
    DaysPrefix(sessions, ws, 7);
    WindowTotalFiltered(sessions, ws, WeekEnd(now));
  }

  lemma {:induction false} DaysPrefix(sessions: seq<Session>, ws: int, n: nat)
    ensures DaysTotal(HalfOpenDays(sessions, ws, n)) == WindowTotal(sessions, ws, DayStart(ws, n) - 1)
    decreases n
  {
    if n == 0 {
      EmptyWindow(sessions, ws, ws - 1);
    } else {
      DaysStep(sessions, ws, n);
      DaysPrefix(sessions, ws, n - 1);
      SplitWindow(sessions, ws, DayStart(ws, n - 1), DayStart(ws, n) - 1);
    }
  }

  /** One more day adds that day's window. */
  lemma DaysStep(sessions: seq<Session>, ws: int, n: nat)
    requires n >= 1
    ensures DaysTotal(HalfOpenDays(sessions, ws, n)) ==
      DaysTotal(HalfOpenDays(sessions, ws, n - 1)) + WindowTotal(sessions, DayStart(ws, n - 1), DayStart(ws, n) - 1)
  {
    var r := HalfOpenDays(sessions, ws, n);
    var mid, hi := DayStart(ws, n - 1), DayStart(ws, n) - 1;
    assert r[..n - 1] == HalfOpenDays(sessions, ws, n - 1);
    assert r[n - 1] == WindowDay(sessions, mid);
    assert mid + DaySeconds - 1 == hi;
  }

  lemma {:induction false} EmptyWindow(sessions: seq<Session>, lo: int, hi: int)
    requires hi < lo
    ensures WindowTotal(sessions, lo, hi) == 0
    decreases |sessions|
  {
    if sessions != [] {
      EmptyWindow(sessions[..|sessions| - 1], lo, hi);
    }
  }

  // ---------------------------------------------------------------------
  // getHourlyStats
  // ---------------------------------------------------------------------

  /** Seconds credited to the start hour of a session that spans hours:
      (60 - m - 1) * 60 + (60 - s). */
  function FirstHourSeconds(t: int): (r: int)
    ensures 1 <= r <= HourSeconds
    ensures r == HourSeconds - 60 * MinuteOf(t) - SecondOf(t)
    ensures r == HourSeconds - t % HourSeconds
  {
    ClockFields(t);
    (60 - MinuteOf(t) - 1) * 60 + (60 - SecondOf(t))
  }

  /** Seconds credited to the end hour of a session that spans hours: the
      seconds elapsed in that clock hour. */
  function LastHourSeconds(t: int): (r: int)
    ensures 0 <= r < HourSeconds
    ensures r == t % HourSeconds
  {
    ClockFields(t);
    MinuteOf(t) * 60 + SecondOf(t)
  }

  /** What one session adds to hour-of-day bucket h. */
  function HourShare(s: Session, h: int): (r: int)
    ensures !(0 <= h < 24) ==> r == 0
    ensures HourOf(s.startTime) != HourOf(s.endTime) ==> 0 <= r <= HourSeconds
  {
    var sh, eh := HourOf(s.startTime), HourOf(s.endTime);
    if sh == eh then
      (if h == sh then s.duration else 0)
    else
      (if h == sh then FirstHourSeconds(s.startTime) else 0)
      + (if sh < h < eh then HourSeconds else 0)
      + (if h == eh then LastHourSeconds(s.endTime) else 0)
  }

  /** Bucket h after every session of the list has been credited. */
  function HourTotal(sessions: seq<Session>, h: int): int
    decreases |sessions|
  {
    if sessions == [] then 0
    else HourTotal(sessions[..|sessions| - 1], h) + HourShare(sessions[|sessions| - 1], h)
  }

  /** A further session within one clock hour adds its whole duration to that
      hour's bucket and leaves the other 23 as they were. */
  lemma SameHourCredit(sessions: seq<Session>, s: Session, h: int)
    requires HourOf(s.startTime) == HourOf(s.endTime)
    ensures HourTotal(sessions + [s], h) ==
      HourTotal(sessions, h) + (if h == HourOf(s.startTime) then s.duration else 0)
  {
    assert (sessions + [s])[..|sessions|] == sessions;
  }

  datatype HourlyTotal = HourlyTotal(hour: nat, seconds: int)

  /** The 24 hour-of-day buckets, filled in place from the sessions in order. */
  method GetHourlyStats(sessions: seq<Session>) returns (stats: seq<HourlyTotal>)
    ensures |stats| == 24
    ensures forall h :: 0 <= h < 24 ==> stats[h] == HourlyTotal(h, HourTotal(sessions, h))
  {
    var hourly := new int[24];
    for i := 0 to 24
      invariant forall k :: 0 <= k < i ==> hourly[k] == 0
    {
      hourly[i] := 0;
    }

    for n := 0 to |sessions|
      invariant forall k :: 0 <= k < 24 ==> hourly[k] == HourTotal(sessions[..n], k)
    {
      var s := sessions[n];
      assert sessions[..n + 1][..n] == sessions[..n];
      var sh, eh := HourOf(s.startTime), HourOf(s.endTime);
      if sh == eh {
        hourly[sh] := hourly[sh] + s.duration;
      } else {
        ghost var before := hourly[..];
        hourly[sh] := hourly[sh] + FirstHourSeconds(s.startTime);
        var hour := sh + 1;
        while hour < eh
          invariant sh + 1 <= hour && (hour <= eh || hour == sh + 1)
          invariant forall k :: 0 <= k < 24 ==>
            hourly[k] == before[k] + (if k == sh then FirstHourSeconds(s.startTime) else 0)
                                   + (if sh < k < hour then HourSeconds else 0)
        {
          hourly[hour] := hourly[hour] + HourSeconds;
          hour := hour + 1;
        }
        if eh != sh {
          hourly[eh] := hourly[eh] + LastHourSeconds(s.endTime);
        }
      }
    }
    assert sessions[..|sessions|] == sessions;

    stats := [];
    for h := 0 to 24
      invariant |stats| == h
      invariant forall k :: 0 <= k < h ==> stats[k] == HourlyTotal(k, HourTotal(sessions, k))
    {
      stats := stats + [HourlyTotal(h, hourly[h])];
    }
  }

  // Properties of the hourly split

  /** The buckets a session that spans clock hours touches: the rest of its
      start hour, every hour strictly between, and the elapsed part of its end
      hour. When the end hour is before the start hour (the session wraps past
      midnight) no middle hour is touched. */
  lemma SpanningShares(s: Session, h: int)
    requires HourOf(s.startTime) != HourOf(s.endTime)
    ensures h == HourOf(s.startTime) ==> HourShare(s, h) == HourSeconds - s.startTime % HourSeconds
    ensures HourOf(s.startTime) < h < HourOf(s.endTime) ==> HourShare(s, h) == HourSeconds
    ensures h == HourOf(s.endTime) ==> HourShare(s, h) == s.endTime % HourSeconds
    ensures h != HourOf(s.startTime) && h != HourOf(s.endTime) && !(HourOf(s.startTime) < h < HourOf(s.endTime))
      ==> HourShare(s, h) == 0
  {
  }

  /** Sum of the first n buckets credited by one session. */
  function SharesUpTo(s: Session, n: nat): int
    decreases n
  {
    if n == 0 then 0 else SharesUpTo(s, n - 1) + HourShare(s, n - 1)
  }

  /** How many hours h < n lie strictly between sh and eh. */
  function MiddleCount(sh: int, eh: int, n: int): int {
    var top := if n < eh then n else eh;
    if top - sh - 1 > 0 then top - sh - 1 else 0
  }

  lemma {:induction false} SharesUpToClosedForm(s: Session, n: nat)
    requires n <= 24
    ensures var sh, eh := HourOf(s.startTime), HourOf(s.endTime);
      SharesUpTo(s, n) ==
        if sh == eh then (if sh < n then s.duration else 0)
        else ((if sh < n then FirstHourSeconds(s.startTime) else 0)
              + HourSeconds * MiddleCount(sh, eh, n)
              + (if eh < n then LastHourSeconds(s.endTime) else 0))
    decreases n
  {
    if n > 0 {
      SharesUpToClosedForm(s, n - 1);
    }
  }

  /** A session whose end hour is after its start hour credits, over all 24
      buckets, exactly its wall-clock time of day difference in seconds. */
  lemma SpanningSessionTotal(s: Session)
    requires HourOf(s.startTime) < HourOf(s.endTime)
    ensures SharesUpTo(s, 24) == s.endTime % DaySeconds - s.startTime % DaySeconds
  {
    SharesUpToClosedForm(s, 24);
    ClockFields(s.startTime);
    ClockFields(s.endTime);
  }

  /** A session that wraps past midnight (end hour before start hour) credits
      only the rest of its start hour and the elapsed part of its end hour. */
  lemma WrappingSessionTotal(s: Session)
    requires HourOf(s.endTime) < HourOf(s.startTime)
    ensures SharesUpTo(s, 24) == FirstHourSeconds(s.startTime) + LastHourSeconds(s.endTime)
  {
    SharesUpToClosedForm(s, 24);
  }

  /** A session whose stored duration is its length and that starts and ends
      on the same calendar day. */
  predicate WithinOneDay(s: Session) {
    s.startTime <= s.endTime &&
    s.duration == s.endTime - s.startTime &&
    s.startTime / DaySeconds == s.endTime / DaySeconds
  }

  /** Such a session is split over the 24 buckets without loss or excess. */
  lemma WithinOneDayShares(s: Session)
    requires WithinOneDay(s)
    ensures SharesUpTo(s, 24) == s.duration
  {
    var sh, eh := HourOf(s.startTime), HourOf(s.endTime);
    ClockFields(s.startTime);
    ClockFields(s.endTime);
    if sh == eh {
      SharesUpToClosedForm(s, 24);
    } else {
      SpanningSessionTotal(s);
    }
  }

  function HourlySum(stats: seq<HourlyTotal>): int
    decreases |stats|
  {
    if stats == [] then 0 else HourlySum(stats[..|stats| - 1]) + stats[|stats| - 1].seconds
  }

  /** Sum of the first n buckets over all sessions. */
  function BucketsUpTo(sessions: seq<Session>, n: nat): int
    decreases n
  {
    if n == 0 then 0 else BucketsUpTo(sessions, n - 1) + HourTotal(sessions, n - 1)
  }

  lemma {:induction false} BucketsUpToSnoc(sessions: seq<Session>, s: Session, n: nat)
    ensures BucketsUpTo(sessions + [s], n) == BucketsUpTo(sessions, n) + SharesUpTo(s, n)
    decreases n
  {
    if n > 0 {
      BucketsUpToSnoc(sessions, s, n - 1);
      assert (sessions + [s])[..|sessions|] == sessions;
    }
  }

  lemma {:induction false} BucketsConserveTime(sessions: seq<Session>)
    requires forall i :: 0 <= i < |sessions| ==> WithinOneDay(sessions[i])
    ensures BucketsUpTo(sessions, 24) == TotalDuration(sessions)
    decreases |sessions|
  {
    if sessions == [] {
      BucketsOfNothing(24);
    } else {
      var init, last := sessions[..|sessions| - 1], sessions[|sessions| - 1];
      assert sessions == init + [last];
      BucketsConserveTime(init);
      BucketsUpToSnoc(init, last, 24);
      WithinOneDayShares(last);
    }
  }

  lemma {:induction false} BucketsOfNothing(n: nat)
    ensures BucketsUpTo([], n) == 0
    decreases n
  {
    if n > 0 { BucketsOfNothing(n - 1); }
  }

  /** When every session lies within one calendar day and its duration is its
      length, the 24 hourly buckets add up to the total recorded time. */
  lemma HourlyStatsConserveTime(sessions: seq<Session>, stats: seq<HourlyTotal>)
    requires |stats| == 24
    requires forall h :: 0 <= h < 24 ==> stats[h] == HourlyTotal(h, HourTotal(sessions, h))
    requires forall i :: 0 <= i < |sessions| ==> WithinOneDay(sessions[i])
    ensures HourlySum(stats) == TotalDuration(sessions)
  {
    forall n | 0 <= n <= 24
      ensures HourlySum(stats[..n]) == BucketsUpTo(sessions, n)
    {
      PrefixBuckets(sessions, stats, n);
    }
    assert stats[..24] == stats;
    BucketsConserveTime(sessions);
  }

  lemma {:induction false} PrefixBuckets(sessions: seq<Session>, stats: seq<HourlyTotal>, n: nat)
    requires |stats| == 24 && n <= 24
    requires forall h :: 0 <= h < 24 ==> stats[h] == HourlyTotal(h, HourTotal(sessions, h))
    ensures HourlySum(stats[..n]) == BucketsUpTo(sessions, n)
    decreases n
  {
    if n > 0 {
      assert stats[..n][..n - 1] == stats[..n - 1];
      PrefixBuckets(sessions, stats, n - 1);
    }
  }

  // ---------------------------------------------------------------------
  // getHeatMapData
  // ---------------------------------------------------------------------

  /** Whether a session is credited to the heat-map cell (day, hour): only its
      start day of week and start hour count. */
  predicate InCell(s: Session, day: int, hour: int) {
    DayOfWeek(s.startTime) == day && HourOf(s.startTime) == hour
  }

  /** Total duration of the sessions credited to cell (day, hour). */
  function CellTotal(sessions: seq<Session>, day: int, hour: int): (r: int)
    ensures !(0 <= day < 7 && 0 <= hour < 24) ==> r == 0
    ensures (forall i :: 0 <= i < |sessions| ==> sessions[i].duration >= 0) ==>
      0 <= r <= TotalDuration(sessions)
    decreases |sessions|
  {
    if sessions == [] then 0
    else
      var last := sessions[|sessions| - 1];
      CellTotal(sessions[..|sessions| - 1], day, hour) + (if InCell(last, day, hour) then last.duration else 0)
  }

  /** A further session adds its whole duration to its start cell and
      nothing to any other cell. */
  lemma HeatCellCredit(sessions: seq<Session>, s: Session, day: int, hour: int)
    ensures CellTotal(sessions + [s], day, hour) ==
      CellTotal(sessions, day, hour) +
      (if day == DayOfWeek(s.startTime) && hour == HourOf(s.startTime) then s.duration else 0)
  {
    assert (sessions + [s])[..|sessions|] == sessions;
  }

  datatype HeatCell = HeatCell(day: nat, hour: nat, seconds: int)

  /** Value read from the sparse dictionary, 0 for a key never written. */
  function CellOf(heat: map<(int, int), int>, day: int, hour: int): int {
    if (day, hour) in heat then heat[(day, hour)] else 0
  }

  /** The 168 cells in day-major order, from a dictionary filled in place. */
  method GetHeatMapData(sessions: seq<Session>) returns (cells: seq<HeatCell>)
    ensures |cells| == 168
    ensures forall i :: 0 <= i < 168 ==>
      cells[i] == HeatCell(i / 24, i % 24, CellTotal(sessions, i / 24, i % 24))
  {
    var heat: map<(int, int), int> := map[];
    for n := 0 to |sessions|
      invariant forall d, h :: CellOf(heat, d, h) == CellTotal(sessions[..n], d, h)
    {
      var s := sessions[n];
      assert sessions[..n + 1][..n] == sessions[..n];
      var key := (DayOfWeek(s.startTime), HourOf(s.startTime));
      if key !in heat {
        heat := heat[key := 0];
      }
      heat := heat[key := heat[key] + s.duration];
    }
    assert sessions[..|sessions|] == sessions;

    cells := [];
    for day := 0 to 7
      invariant |cells| == 24 * day
      invariant forall j :: 0 <= j < |cells| ==>
        cells[j] == HeatCell(j / 24, j % 24, CellTotal(sessions, j / 24, j % 24))
    {
      for hour := 0 to 24
        invariant |cells| == 24 * day + hour
        invariant forall j :: 0 <= j < |cells| ==>
          cells[j] == HeatCell(j / 24, j % 24, CellTotal(sessions, j / 24, j % 24))
      {
        assert (24 * day + hour) / 24 == day && (24 * day + hour) % 24 == hour;
        cells := cells + [HeatCell(day, hour, CellOf(heat, day, hour))];
      }
    }
  }

  function CellsTotal(cells: seq<HeatCell>): int
    decreases |cells|
  {
    if cells == [] then 0 else CellsTotal(cells[..|cells| - 1]) + cells[|cells| - 1].seconds
  }

  /** Sum of the cells with index below n, in day-major order. */
  function GridUpTo(sessions: seq<Session>, n: nat): int
    decreases n
  {
    if n == 0 then 0 else GridUpTo(sessions, n - 1) + CellTotal(sessions, (n - 1) / 24, (n - 1) % 24)
  }

  /** Position of a session's start cell in day-major order. */
  function CellIndex(s: Session): nat {
    24 * DayOfWeek(s.startTime) + HourOf(s.startTime)
  }

  lemma CellIndexMatches(s: Session, i: nat)
    ensures CellIndex(s) < 168
    ensures InCell(s, i / 24, i % 24) <==> i == CellIndex(s)
  {
  }

  lemma {:induction false} GridUpToSnoc(sessions: seq<Session>, s: Session, n: nat)
    ensures GridUpTo(sessions + [s], n) == GridUpTo(sessions, n) + (if CellIndex(s) < n then s.duration else 0)
    decreases n
  {
    if n > 0 {
      GridUpToSnoc(sessions, s, n - 1);
      HeatCellCredit(sessions, s, (n - 1) / 24, (n - 1) % 24);
      CellIndexMatches(s, n - 1);
    }
  }

  lemma {:induction false} GridOfNothing(n: nat)
    ensures GridUpTo([], n) == 0
    decreases n
  {
    if n > 0 { GridOfNothing(n - 1); }
  }

  lemma {:induction false} GridConservesTime(sessions: seq<Session>)
    ensures GridUpTo(sessions, 168) == TotalDuration(sessions)
    decreases |sessions|
  {
    if sessions == [] {
      GridOfNothing(168);
    } else {
      var init, last := sessions[..|sessions| - 1], sessions[|sessions| - 1];
      assert sessions == init + [last];
      GridConservesTime(init);
      GridUpToSnoc(init, last, 168);
      CellIndexMatches(last, 0);
    }
  }

  lemma {:induction false} PrefixCells(sessions: seq<Session>, cells: seq<HeatCell>, n: nat)
    requires |cells| == 168 && n <= 168
    requires forall i :: 0 <= i < 168 ==>
      cells[i] == HeatCell(i / 24, i % 24, CellTotal(sessions, i / 24, i % 24))
    ensures CellsTotal(cells[..n]) == GridUpTo(sessions, n)
    decreases n
  {
    if n > 0 {
      assert cells[..n][..n - 1] == cells[..n - 1];
      PrefixCells(sessions, cells, n - 1);
    }
  }

  /** Every session is credited whole to exactly one cell, so the 168 cells
      add up to the total recorded time. */
  lemma HeatMapConservesTime(sessions: seq<Session>, cells: seq<HeatCell>)
    requires |cells| == 168
    requires forall i :: 0 <= i < 168 ==>
      cells[i] == HeatCell(i / 24, i % 24, CellTotal(sessions, i / 24, i % 24))
    ensures CellsTotal(cells) == TotalDuration(sessions)
  {
    PrefixCells(sessions, cells, 168);
    assert cells[..168] == cells;
    GridConservesTime(sessions);
  }

  // ---------------------------------------------------------------------
  // formatDuration / formatDurationDetailed
  // ---------------------------------------------------------------------

  datatype Hms = Hms(hours: nat, minutes: nat, secs: nat)

  /** floor(s / 3600), floor((s % 3600) / 60), s % 60 */
  function SplitDuration(seconds: nat): (r: Hms)
    ensures r.minutes < 60 && r.secs < 60
    ensures 3600 * r.hours + 60 * r.minutes + r.secs == seconds
  {
    Hms(seconds / 3600, (seconds % 3600) / 60, seconds % 60)
  }

  /** The split is the only one with minutes and seconds below 60. */
  lemma SplitDurationUnique(seconds: nat, h: nat, m: nat, s: nat)
    requires m < 60 && s < 60 && 3600 * h + 60 * m + s == seconds
    ensures SplitDuration(seconds) == Hms(h, m, s)
  {
    var r := SplitDuration(seconds);
    assert 60 * m + s < 3600;
    assert 60 * r.minutes + r.secs < 3600;
  }

  function ShowHms(h: nat, m: nat, s: nat): string {
    NatToString(h) + "h " + NatToString(m) + "m " + NatToString(s) + "s"
  }

  function ShowMs(m: nat, s: nat): string {
    NatToString(m) + "m " + NatToString(s) + "s"
  }

  /** Always "Hh Mm Ss", every unit shown even when zero. */
  function FormatDurationDetailed(seconds: nat): (r: string)
    ensures exists h: nat, m: nat, s: nat ::
      m < 60 && s < 60 && 3600 * h + 60 * m + s == seconds && r == ShowHms(h, m, s)
  {
    var d := SplitDuration(seconds);
    ShowHms(d.hours, d.minutes, d.secs)
  }

  /** The detailed text determines the duration. */
  lemma FormatDurationDetailedInjective(a: nat, b: nat)
    requires FormatDurationDetailed(a) == FormatDurationDetailed(b)
    ensures a == b
  {
    var x, y := SplitDuration(a), SplitDuration(b);
    ShowHmsInjective(x.hours, x.minutes, x.secs, y.hours, y.minutes, y.secs);
  }

  lemma ShowHmsInjective(h: nat, m: nat, s: nat, h': nat, m': nat, s': nat)
    requires ShowHms(h, m, s) == ShowHms(h', m', s')
    ensures h == h' && m == m' && s == s'
  {
    ShowHmsSplit(h, m, s);
    ShowHmsSplit(h', m', s');
    DigitRunSplit(NatToString(h), "h " + ShowMs(m, s), NatToString(h'), "h " + ShowMs(m', s'));
    NatToStringInjective(h, h');
    assert ShowMs(m, s) == ("h " + ShowMs(m, s))[2..];
    assert ShowMs(m', s') == ("h " + ShowMs(m', s'))[2..];
    ShowMsInjective(m, s, m', s');
  }

  lemma ShowHmsSplit(h: nat, m: nat, s: nat)
    ensures ShowHms(h, m, s) == NatToString(h) + ("h " + ShowMs(m, s))
  {
  }

  lemma ShowMsInjective(m: nat, s: nat, m': nat, s': nat)
    requires ShowMs(m, s) == ShowMs(m', s')
    ensures m == m' && s == s'
  {
    var rest, rest' := "m " + NatToString(s) + "s", "m " + NatToString(s') + "s";
    assert ShowMs(m, s) == NatToString(m) + rest;
    assert ShowMs(m', s') == NatToString(m') + rest';
    DigitRunSplit(NatToString(m), rest, NatToString(m'), rest');
    NatToStringInjective(m, m');
    assert NatToString(s) + "s" == rest[2..];
    assert NatToString(s') + "s" == rest'[2..];
    DigitRunSplit(NatToString(s), "s", NatToString(s'), "s");
    NatToStringInjective(s, s');
  }

  /** The texts of a zero hour and a zero minute. */
  lemma ZeroUnits(m: nat, s: nat)
    ensures ShowHms(0, m, s) == "0h " + ShowMs(m, s)
    ensures ShowMs(0, s) == "0m " + NatToString(s) + "s"
  {
    assert NatToString(0) == "0";
  }

  /** The compact form: leading zero units are left out. */
  function FormatDuration(seconds: nat): (r: string)
    ensures seconds >= 3600 ==> r == FormatDurationDetailed(seconds)
    ensures 60 <= seconds < 3600 ==> FormatDurationDetailed(seconds) == "0h " + r
    ensures seconds < 60 ==> FormatDurationDetailed(seconds) == "0h 0m " + r
  {
    var d := SplitDuration(seconds);
    ZeroUnits(d.minutes, d.secs);
    assert d.hours > 0 <==> seconds >= 3600;
    assert d.hours == 0 ==> (d.minutes > 0 <==> seconds >= 60);
    if d.hours > 0 then ShowHms(d.hours, d.minutes, d.secs)
    else if d.minutes > 0 then ShowMs(d.minutes, d.secs)
    else NatToString(d.secs) + "s"
  }
}
