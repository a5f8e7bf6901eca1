/**
 * The clock face (src/components/TimerDisplay.tsx): elapsed seconds shown as
 * an "HH:MM" line and a separate two-digit seconds line.
 */
module TimerDisplay {
  import opened Decimal
  import DateUtils

  /** The two texts and the layout they are drawn in. */
  datatype Display = Display(fullscreen: bool, timeText: string, secondsText: string)

  /** Reads as hours, ':' and exactly two minute digits. */
  predicate ClockText(t: string) {
    |t| >= 5 && t[|t| - 3] == ':' && AllDigits(t[..|t| - 3]) && AllDigits(t[|t| - 2..])
  }

  /** The digits before the colon. */
  function HoursText(t: string): string
    requires ClockText(t)
  {
    t[..|t| - 3]
  }

  function HoursPart(t: string): nat
    requires ClockText(t)
  {
    ParseDigits(HoursText(t))
  }

  function MinutesPart(t: string): nat
    requires ClockText(t)
  {
    ParseDigits(t[|t| - 2..])
  }

  /** The texts read back to the elapsed time: hours are never truncated,
      minutes and seconds are two digits below 60. */
  function Render(seconds: nat, isFullscreen: bool): (r: Display)
    ensures r.fullscreen == isFullscreen
    ensures |r.secondsText| == 2 && AllDigits(r.secondsText) && ParseDigits(r.secondsText) < 60
    ensures ClockText(r.timeText) && MinutesPart(r.timeText) < 60
    ensures 3600 * HoursPart(r.timeText) + 60 * MinutesPart(r.timeText) + ParseDigits(r.secondsText) == seconds
    ensures HoursPart(r.timeText) == seconds / 3600
    ensures seconds / 3600 < 100 ==> |r.timeText| == 5
    ensures HoursText(r.timeText) == TwoDigits(seconds / 3600)
  {
    var d := DateUtils.SplitDuration(seconds);
    assert d.hours == seconds / 3600 by {
      DateUtils.DivOf(seconds, 3600, d.hours, 60 * d.minutes + d.secs);
    }
    var c, ss := Clock(d.hours, d.minutes), TwoDigits(d.secs);
    assert HoursPart(c) == d.hours && MinutesPart(c) == d.minutes && ParseDigits(ss) == d.secs;
    Display(isFullscreen, c, ss)
  }

  /** The "HH:MM" line: at least two hour digits, exactly two minute digits. */
  function Clock(hours: nat, minutes: nat): (t: string)
    requires minutes < 60
    ensures ClockText(t) && HoursPart(t) == hours && MinutesPart(t) == minutes
    ensures hours < 100 ==> |t| == 5
    ensures HoursText(t) == TwoDigits(hours)
  {
    var hh, mm := TwoDigits(hours), TwoDigits(minutes);
    var t := hh + ":" + mm;
    assert ClockText(t) && HoursText(t) == hh && |t| == |hh| + 3 && MinutesPart(t) == minutes by {
      JoinClockText(hh, mm);
    }
    assert hours < 100 ==> |hh| == 2;
    t
  }

  lemma JoinClockText(hh: string, mm: string)
    requires |hh| >= 2 && AllDigits(hh) && |mm| == 2 && AllDigits(mm)
    ensures ClockText(hh + ":" + mm)
    ensures HoursText(hh + ":" + mm) == hh && MinutesPart(hh + ":" + mm) == ParseDigits(mm)
  {
    var t := hh + ":" + mm;
    assert t[..|t| - 3] == hh;
    assert t[|t| - 2..] == mm;
  }

  /** Fullscreen changes only the layout: both texts are the same. */
  lemma RenderIgnoresFullscreen(seconds: nat)
    ensures Render(seconds, true).timeText == Render(seconds, false).timeText
    ensures Render(seconds, true).secondsText == Render(seconds, false).secondsText
  {
  }

  /** From 100 hours on the hour text is the full decimal number. */
  lemma LongSessionsKeepAllHourDigits(seconds: nat)
    requires seconds >= 100 * 3600
    ensures Render(seconds, false).timeText[..|Render(seconds, false).timeText| - 3] == NatToString(seconds / 3600)
    ensures |Render(seconds, false).timeText| >= 6
  {
    var t := Render(seconds, false).timeText;
    var d := DateUtils.SplitDuration(seconds);
    assert t == TwoDigits(d.hours) + ":" + TwoDigits(d.minutes);
    assert t[..|t| - 3] == TwoDigits(d.hours);
  }
}
