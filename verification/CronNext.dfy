/** The search for the next fire time of server/src/cron-scheduler.ts, over a calendar without clock
    shifts: day `d` starts at local millisecond `d` * 86 400 000. */
module CronNext {
  import opened Bytes
  import opened CronFields

  const SEARCH_DAYS: nat := 366 * 4 + 2
  const MINUTE: int := 60000
  const DAY: int := 86400000

  /** Month (1 to 12), day of the month and weekday (0 is Sunday) of every day. */
  datatype Calendar = Calendar(month: int -> int, dayOfMonth: int -> int, weekday: int -> int)

  function At(day: int, hour: int, minute: int): int
  {
    day * DAY + (hour * 60 + minute) * MINUTE
  }

  function DayOf(ms: int): int
  {
    ms / DAY
  }

  /** `dayMatches`: a restricted day-of-month and a restricted weekday are alternatives. */
  predicate DayMatches(f: Fields, c: Calendar, day: int)
  {
    if f.domAny && f.dowAny then true
    else if f.domAny then c.weekday(day) in f.dayOfWeek
    else if f.dowAny then c.dayOfMonth(day) in f.dayOfMonth
    else c.dayOfMonth(day) in f.dayOfMonth || c.weekday(day) in f.dayOfWeek
  }

  predicate GoodDay(f: Fields, c: Calendar, day: int)
  {
    c.month(day) in f.month && DayMatches(f, c, day)
  }

  /** `t` is a minute the expression names. */
  ghost predicate Fires(f: Fields, c: Calendar, t: int)
  {
    exists day: int, hour: int, minute: int ::
      t == At(day, hour, minute) && GoodDay(f, c, day) && hour in f.hour && minute in f.minute
  }

  /** `t` is the first fire strictly after `after` (on a day up to `lastDay`); none if there is none. */
  ghost predicate IsNext(f: Fields, c: Calendar, after: int, lastDay: int, next: Option<int>)
  {
    match next
    case Some(t) =>
      && Fires(f, c, t) && after < t && DayOf(t) <= lastDay
      && forall u :: Fires(f, c, u) && after < u ==> t <= u
    case None => forall u :: Fires(f, c, u) && after < u ==> DayOf(u) > lastDay
  }

  /** The search window: the day of `after` and 1466 days more. */
  function LastDay(after: int): int
  {
    DayOf(after) + SEARCH_DAYS
  }

  // ---------------------------------------------------------------------
  // The search.
  // ---------------------------------------------------------------------

  function FirstMinute(minutes: seq<int>, day: int, hour: int, after: int): Option<int>
  {
    if minutes == [] then None
    else if At(day, hour, minutes[0]) > after then Some(At(day, hour, minutes[0]))
    else FirstMinute(minutes[1..], day, hour, after)
  }

  function FirstHour(hours: seq<int>, minutes: seq<int>, day: int, after: int): Option<int>
  {
    if hours == [] then None
    else
      var first := FirstMinute(minutes, day, hours[0], after);
      if first.Some? then first else FirstHour(hours[1..], minutes, day, after)
  }

  function FirstFrom(f: Fields, c: Calendar, day: int, lastDay: int, after: int): Option<int>
    decreases lastDay - day
  {
    if day > lastDay then None
    else
      var first := if GoodDay(f, c, day) then FirstHour(f.hour, f.minute, day, after) else None;
      if first.Some? then first else FirstFrom(f, c, day + 1, lastDay, after)
  }

  /** What `nextCronFire` computes. */
  function NextFire(f: Fields, c: Calendar, after: int): Option<int>
  {
    FirstFrom(f, c, DayOf(after), LastDay(after), after)
  }

  lemma AtInDay(day: int, hour: int, minute: int)
    requires 0 <= hour <= 23 && 0 <= minute <= 59
    ensures day * DAY <= At(day, hour, minute) < (day + 1) * DAY && DayOf(At(day, hour, minute)) == day
  {
  }

  /** The first minute after `after` in a sorted list is the least. */
  lemma {:induction false} FirstMinuteIs(minutes: seq<int>, day: int, hour: int, after: int)
    requires Increasing(minutes)
    ensures match FirstMinute(minutes, day, hour, after)
            case Some(t) => t > after && (exists m :: m in minutes && t == At(day, hour, m))
                            && forall m :: m in minutes && At(day, hour, m) > after ==> t <= At(day, hour, m)
            case None => forall m :: m in minutes ==> At(day, hour, m) <= after
    decreases |minutes|
  {
    if minutes != [] {
      var first, rest := minutes[0], minutes[1..];
      assert first in minutes;
      forall m | m in rest ensures first < m {
        var i :| 0 <= i < |rest| && rest[i] == m;
        assert minutes[0] < minutes[i + 1];
      }
      if At(day, hour, first) <= after {
        FirstMinuteIs(rest, day, hour, after);
        assert forall m :: m in rest ==> m in minutes;
      }
    }
  }

  lemma {:induction false} FirstHourIs(hours: seq<int>, minutes: seq<int>, day: int, after: int)
    requires Increasing(hours) && Within(minutes, 0, 59)
    ensures match FirstHour(hours, minutes, day, after)
            case Some(t) => t > after && (exists h, m :: h in hours && m in minutes && t == At(day, h, m))
                            && forall h, m :: h in hours && m in minutes && At(day, h, m) > after ==> t <= At(day, h, m)
            case None => forall h, m :: h in hours && m in minutes ==> At(day, h, m) <= after
    decreases |hours|
  {
    if hours != [] {
      var first, rest := hours[0], hours[1..];
      assert first in hours && forall h :: h in rest ==> h in hours;
      FirstMinuteIs(minutes, day, first, after);
      forall h | h in rest ensures first < h {
        var i :| 0 <= i < |rest| && rest[i] == h;
        assert hours[0] < hours[i + 1];
      }
      forall h, m, n | h in rest && m in minutes && n in minutes ensures At(day, first, n) < At(day, h, m) {
      }
      if FirstMinute(minutes, day, first, after).None? {
        FirstHourIs(rest, minutes, day, after);
      }
    }
  }

  /** A fire on day `day` comes after `after`. */
  ghost predicate FiresOn(f: Fields, c: Calendar, day: int, after: int, t: int)
  {
    t > after && GoodDay(f, c, day) && exists h, m :: h in f.hour && m in f.minute && t == At(day, h, m)
  }

  lemma DayIs(f: Fields, c: Calendar, day: int, after: int)
    requires Sound(f)
    ensures match if GoodDay(f, c, day) then FirstHour(f.hour, f.minute, day, after) else None
            case Some(t) => FiresOn(f, c, day, after, t) && forall u :: FiresOn(f, c, day, after, u) ==> t <= u
            case None => forall u :: !FiresOn(f, c, day, after, u)
  {
    FirstHourIs(f.hour, f.minute, day, after);
  }

  lemma OnItsDay(f: Fields, c: Calendar, day: int, after: int, t: int)
    requires Sound(f) && FiresOn(f, c, day, after, t)
    ensures DayOf(t) == day && day * DAY <= t < (day + 1) * DAY && Fires(f, c, t)
  {
    var h, m :| h in f.hour && m in f.minute && t == At(day, h, m);
    AtInDay(day, h, m);
  }

  lemma FiresOnSomeDay(f: Fields, c: Calendar, after: int, u: int)
    requires Sound(f) && Fires(f, c, u) && u > after
    ensures FiresOn(f, c, DayOf(u), after, u)
  {
    var day, h, m :| u == At(day, h, m) && GoodDay(f, c, day) && h in f.hour && m in f.minute;
    AtInDay(day, h, m);
  }

  lemma {:induction false} FirstFromIs(f: Fields, c: Calendar, day: int, lastDay: int, after: int)
    requires Sound(f)
    ensures match FirstFrom(f, c, day, lastDay, after)
            case Some(t) => day <= DayOf(t) <= lastDay && FiresOn(f, c, DayOf(t), after, t)
                            && forall d, u :: d >= day && FiresOn(f, c, d, after, u) ==> t <= u
            case None => forall d, u :: day <= d <= lastDay ==> !FiresOn(f, c, d, after, u)
    decreases lastDay - day
  {
    if day <= lastDay {
      DayIs(f, c, day, after);
      var first := if GoodDay(f, c, day) then FirstHour(f.hour, f.minute, day, after) else None;
      if first.Some? {
        OnItsDay(f, c, day, after, first.value);
        forall d, u | d >= day && FiresOn(f, c, d, after, u) ensures first.value <= u {
          OnItsDay(f, c, d, after, u);
          if d > day {
            assert d * DAY >= (day + 1) * DAY;
          }
        }
      } else {
        FirstFromIs(f, c, day + 1, lastDay, after);
      }
    }
  }

  /** The search finds the least matching minute strictly after the reference, and finds none only
      when there is none on any day of the search window. */
  lemma NextFireIsLeast(f: Fields, c: Calendar, after: int)
    requires Sound(f)
    ensures IsNext(f, c, after, LastDay(after), NextFire(f, c, after))
  {
    FirstFromIs(f, c, DayOf(after), LastDay(after), after);
    forall u | Fires(f, c, u) && after < u ensures FiresOn(f, c, DayOf(u), after, u) && DayOf(u) >= DayOf(after) {
      FiresOnSomeDay(f, c, after, u);
    }
    if NextFire(f, c, after).Some? {
      OnItsDay(f, c, DayOf(NextFire(f, c, after).value), after, NextFire(f, c, after).value);
    }
  }

  /** `nextCronFire`. */
  method FindNextFire(f: Fields, c: Calendar, after: int) returns (next: Option<int>)
    ensures next == NextFire(f, c, after)
  {
    var day := 0;
    while day <= SEARCH_DAYS
      invariant 0 <= day <= SEARCH_DAYS + 1
      invariant FirstFrom(f, c, DayOf(after) + day, LastDay(after), after) == NextFire(f, c, after)
    {
      var date := DayOf(after) + day;
      if GoodDay(f, c, date) {
        next := FindInDay(f, date, after);
        if next.Some? {
          return next;
        }
      }
      day := day + 1;
    }
    return None;
  }

  method FindInDay(f: Fields, date: int, after: int) returns (next: Option<int>)
    ensures next == FirstHour(f.hour, f.minute, date, after)
  {
    var h := 0;
    assert f.hour[0..] == f.hour;
    while h < |f.hour|
      invariant 0 <= h <= |f.hour|
          && FirstHour(f.hour[h..], f.minute, date, after) == FirstHour(f.hour, f.minute, date, after)
    {
      assert f.hour[h..][1..] == f.hour[h + 1..];
      var m := 0;
      assert f.minute[0..] == f.minute;
      while m < |f.minute|
        invariant 0 <= m <= |f.minute|
        invariant FirstMinute(f.minute[m..], date, f.hour[h], after) == FirstMinute(f.minute, date, f.hour[h], after)
      {
        assert f.minute[m..][1..] == f.minute[m + 1..];
        var at := At(date, f.hour[h], f.minute[m]);
        if at > after {
          return Some(at);
        }
        m := m + 1;
      }
      h := h + 1;
    }
    return None;
  }
}
