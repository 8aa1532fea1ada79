/**
 Week computation for the reservation store: every date is mapped to the
 Monday-start week that contains it, that week's Sunday end and its Friday
 delivery day.

 A calendar date is a day number (day 0 is 1970-01-01, a Thursday) together
 with a time of day in milliseconds. Time zones are not modelled: every
 moment is read in the one local calendar the store uses.
 */
module Calendar {

  const MsPerDay: int := 86_400_000

  /** Milliseconds since midnight. */
  type TimeOfDay = ms: int | 0 <= ms < MsPerDay

  /** A point in local time: a day number and a time of day on that day. */
  datatype Moment = Moment(day: int, time: TimeOfDay)

  /** The three dates the store keeps for the active week. */
  datatype WeekInfo = WeekInfo(startDate: Moment, endDate: Moment, deliveryDay: Moment)

  // Weekday numbers as `Date.getDay` returns them.
  const Sunday: int := 0
  const Monday: int := 1
  const Friday: int := 5

  /** Day of the week of a day number, 0 for Sunday up to 6 for Saturday. */
  function Weekday(day: int): (w: int)
    ensures 0 <= w < 7
  {
    // day 0 (1970-01-01) is a Thursday
    (day + 4) % 7
  }

  /** The time of day `h:m:s.ms`, as `Date.setHours(h, m, s, ms)` sets it. */
  function Clock(h: int, m: int, s: int, ms: int): (t: TimeOfDay)
    requires 0 <= h < 24 && 0 <= m < 60 && 0 <= s < 60 && 0 <= ms < 1000
    ensures t / 3_600_000 == h
    ensures (t / 60_000) % 60 == m
    ensures (t / 1000) % 60 == s
    ensures t % 1000 == ms
  {
    ((h * 60 + m) * 60 + s) * 1000 + ms
  }

  const Midnight: TimeOfDay := Clock(0, 0, 0, 0)
  const LastMillisecond: TimeOfDay := Clock(23, 59, 59, 999)

  /** Chronological order on moments. */
  predicate Before(a: Moment, b: Moment) {
    a.day < b.day || (a.day == b.day && a.time <= b.time)
  }

  /**
   The number of days back to the Monday of the week: 6 on a Sunday, one
   less than the weekday number otherwise. Sunday is the last day of a week.
   */
  function DaysSinceMonday(day: int): (k: int)
    ensures 0 <= k <= 6
    ensures Weekday(day - k) == Monday
  {
    var current := Weekday(day);
    if current == Sunday then 6 else current - 1
  }

  /** `s` is the first day of a Monday-to-Sunday span holding `day`. */
  predicate InWeekOf(day: int, s: int) {
    Weekday(s) == Monday && s <= day <= s + 6
  }

  /**
   The week of `date`: its Monday at 00:00:00.000, its Sunday at
   23:59:59.999 and its Friday at 00:00:00.000.
   */
  function GetWeekInfo(date: Moment): (w: WeekInfo)
    ensures Weekday(w.startDate.day) == Monday && w.startDate.time == Midnight
    ensures w.endDate.day == w.startDate.day + 6 && w.endDate.time == LastMillisecond
    ensures Weekday(w.endDate.day) == Sunday
    ensures w.deliveryDay.day == w.startDate.day + 4 && w.deliveryDay.time == Midnight
    ensures Weekday(w.deliveryDay.day) == Friday
    ensures Before(w.startDate, date) && Before(date, w.endDate)
  {
    var monday := date.day - DaysSinceMonday(date.day);
    WeekInfo(Moment(monday, Midnight), Moment(monday + 6, LastMillisecond), Moment(monday + 4, Midnight))
  }

  /** Exactly one Monday lies at most six days before any day. */
  lemma MondayOffsetUnique(day: int, k: int)
    requires 0 <= k <= 6 && Weekday(day - k) == Monday
    ensures k == DaysSinceMonday(day)
  {
  }

  /**
   The week start of `date` is `s` exactly when `s` is a Monday and `date`
   falls within the six days that follow it.
   */
  lemma WeekStartIff(date: Moment, s: int)
    ensures GetWeekInfo(date).startDate.day == s <==> InWeekOf(date.day, s)
  {
    if InWeekOf(date.day, s) {
      MondayOffsetUnique(date.day, date.day - s);
    }
  }

  /** A week's start is entirely determined by its Monday. */
  lemma WeekInfoOfMonday(date: Moment, s: int)
    requires InWeekOf(date.day, s)
    ensures GetWeekInfo(date) == WeekInfo(Moment(s, Midnight), Moment(s + 6, LastMillisecond), Moment(s + 4, Midnight))
  {
    WeekStartIff(date, s);
  }

  /** Any two dates in the same Monday-to-Sunday span give the same week. */
  lemma SameWeekSameInfo(a: Moment, b: Moment, s: int)
    requires InWeekOf(a.day, s) && InWeekOf(b.day, s)
    ensures GetWeekInfo(a) == GetWeekInfo(b)
  {
    WeekInfoOfMonday(a, s);
    WeekInfoOfMonday(b, s);
  }

  /** Two dates give the same week exactly when they share a Monday-to-Sunday span. */
  lemma SameWeekIff(a: Moment, b: Moment)
    ensures GetWeekInfo(a) == GetWeekInfo(b) <==> InWeekOf(b.day, GetWeekInfo(a).startDate.day)
  {
    var s := GetWeekInfo(a).startDate.day;
    WeekStartIff(a, s);
    WeekStartIff(b, s);
    if InWeekOf(b.day, s) {
      SameWeekSameInfo(a, b, s);
    }
  }

  /**
   Normalising a week's own start date gives the week back, so re-normalising
   a stored week (as `updateWeekInfo` does) changes nothing.
   */
  lemma WeekInfoIdempotent(date: Moment)
    ensures GetWeekInfo(GetWeekInfo(date).startDate) == GetWeekInfo(date)
  {
    var w := GetWeekInfo(date);
    SameWeekSameInfo(w.startDate, date, w.startDate.day);
  }

  /** So is normalising any of the week's three dates. */
  lemma WeekInfoOfOwnDates(date: Moment)
    ensures GetWeekInfo(GetWeekInfo(date).endDate) == GetWeekInfo(date)
    ensures GetWeekInfo(GetWeekInfo(date).deliveryDay) == GetWeekInfo(date)
  {
    var w := GetWeekInfo(date);
    SameWeekSameInfo(w.endDate, date, w.startDate.day);
    SameWeekSameInfo(w.deliveryDay, date, w.startDate.day);
  }

  /**
   Sunday 2024-06-09 (day 19883) belongs to the week of Monday 2024-06-03,
   which ends on 2024-06-09 at 23:59:59.999 and delivers on Friday 2024-06-07.
   */
  lemma SundayBelongsToPrecedingMonday(t: TimeOfDay)
    ensures Weekday(19883) == Sunday
    ensures GetWeekInfo(Moment(19883, t))
         == WeekInfo(Moment(19877, Midnight), Moment(19883, LastMillisecond), Moment(19881, Midnight))
  {
    assert 19883 + 4 == 7 * 2841;
    assert DaysSinceMonday(19883) == 6;
  }
}
