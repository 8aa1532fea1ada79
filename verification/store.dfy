/**
 The in-memory reservation store: the active week, the slots shown for it
 and the reservation counters. Every mutator builds a new state from the
 old one and changes only the fields it names.
 */
module ReservationStore {
  import opened Calendar
  import opened Storage

  /** A slot as the booking page shows it. */
  datatype TimeSlot = TimeSlot(id: SlotId, time: string, available: bool)

  datatype StoreState = StoreState(
    timeSlots: seq<TimeSlot>,
    reservations: int,
    totalReservations: int,
    minReservations: int,
    maxReservations: int,
    weekInfo: WeekInfo)

  // Display thresholds, never enforced.
  const MinReservations: int := 5
  const MaxReservations: int := 10

  /**
   The key a week is stored under: the date part of its start date. Time
   zones are not modelled, so this is the start date's day number.
   */
  function WeekKey(date: Moment): int {
    date.day
  }

  /**
   What every reachable store state satisfies: both reservation counters
   agree, the thresholds are the fixed ones and the week is normalised.
   */
  predicate Coherent(s: StoreState) {
    && s.reservations == s.totalReservations
    && s.minReservations == MinReservations
    && s.maxReservations == MaxReservations
    && s.weekInfo == GetWeekInfo(s.weekInfo.startDate)
  }

  /** The state the store is created with, `now` being the clock's reading. */
  function Initial(now: Moment): (s: StoreState)
    ensures Coherent(s)
    ensures s.timeSlots == [] && s.reservations == 3
    ensures Before(s.weekInfo.startDate, now) && Before(now, s.weekInfo.endDate)
  {
    WeekInfoIdempotent(now);
    StoreState([], 3, 3, MinReservations, MaxReservations, GetWeekInfo(now))
  }

  /** The slots with `available` set on those whose id is `id`. */
  function SetAvailable(slots: seq<TimeSlot>, id: SlotId, available: bool): (r: seq<TimeSlot>)
    ensures |r| == |slots|
    ensures forall i :: 0 <= i < |r| ==>
      r[i] == if slots[i].id == id then slots[i].(available := available) else slots[i]
  {
    if |slots| == 0 then []
    else
      var head := if slots[0].id == id then slots[0].(available := available) else slots[0];
      [head] + SetAvailable(slots[1..], id, available)
  }

  /**
   Sets the availability of the slot with id `id`; every other slot, and
   every other field of every slot, stays as it was.
   */
  function UpdateTimeSlot(s: StoreState, id: SlotId, available: bool): (r: StoreState)
    ensures r == s.(timeSlots := r.timeSlots)
    ensures |r.timeSlots| == |s.timeSlots|
    ensures forall i :: 0 <= i < |r.timeSlots| ==>
      r.timeSlots[i].id == s.timeSlots[i].id && r.timeSlots[i].time == s.timeSlots[i].time
    ensures forall i :: 0 <= i < |r.timeSlots| ==>
      r.timeSlots[i].available == if s.timeSlots[i].id == id then available else s.timeSlots[i].available
    ensures Coherent(s) ==> Coherent(r)
  {
    s.(timeSlots := SetAvailable(s.timeSlots, id, available))
  }

  /** Setting a slot's availability twice is the same as setting it once. */
  lemma UpdateTimeSlotIdempotent(s: StoreState, id: SlotId, available: bool)
    ensures UpdateTimeSlot(UpdateTimeSlot(s, id, available), id, available) == UpdateTimeSlot(s, id, available)
  {
    var once := UpdateTimeSlot(s, id, available);
    var twice := UpdateTimeSlot(once, id, available);
    assert twice.timeSlots == once.timeSlots;
  }

  /** Updates on two different slots do not interfere. */
  lemma UpdateTimeSlotCommutes(s: StoreState, a: SlotId, x: bool, b: SlotId, y: bool)
    requires a != b
    ensures UpdateTimeSlot(UpdateTimeSlot(s, a, x), b, y) == UpdateTimeSlot(UpdateTimeSlot(s, b, y), a, x)
  {
    var ab := UpdateTimeSlot(UpdateTimeSlot(s, a, x), b, y);
    var ba := UpdateTimeSlot(UpdateTimeSlot(s, b, y), a, x);
    assert ab.timeSlots == ba.timeSlots;
  }

  /** Sets both reservation counters to `count`, and nothing else. */
  function UpdateReservations(s: StoreState, count: nat): (r: StoreState)
    ensures r.reservations == r.totalReservations == count
    ensures r.timeSlots == s.timeSlots && r.weekInfo == s.weekInfo
    ensures r.minReservations == s.minReservations && r.maxReservations == s.maxReservations
    ensures Coherent(s) ==> Coherent(r)
  {
    s.(reservations := count, totalReservations := count)
  }

  /** The counters keep only the last count written. */
  lemma UpdateReservationsLastWins(s: StoreState, a: nat, b: nat)
    ensures UpdateReservations(UpdateReservations(s, a), b) == UpdateReservations(s, b)
  {
  }

  /**
   Counts the reservations stored for week `week`; when the query fails
   the state is left as it was.
   */
  function SyncReservations(s: StoreState, week: int, db: Db, fails: bool): (r: StoreState)
    ensures fails ==> r == s
    ensures !fails ==> r == UpdateReservations(s, |ReservationsOfWeek(db.reservations, week)|)
    ensures Coherent(s) ==> Coherent(r)
  {
    match SelectReservationsByWeek(db, week, fails)
    case Ok(rows) => UpdateReservations(s, |rows|)
    case _ => s
  }

  /**
   Moves the store to the week of `w.startDate` (normalising it again) and
   recounts that week's reservations.
   */
  function UpdateWeekInfo(s: StoreState, w: WeekInfo, db: Db, countFails: bool): (r: StoreState)
    ensures r.weekInfo == GetWeekInfo(w.startDate)
    ensures r.timeSlots == s.timeSlots
    ensures r.minReservations == s.minReservations && r.maxReservations == s.maxReservations
    ensures countFails ==> r.reservations == s.reservations && r.totalReservations == s.totalReservations
    ensures !countFails ==>
      r.reservations == r.totalReservations == |ReservationsOfWeek(db.reservations, WeekKey(r.weekInfo.startDate))|
    ensures Coherent(s) ==> Coherent(r)
  {
    var week := GetWeekInfo(w.startDate);
    WeekInfoIdempotent(w.startDate);
    SyncReservations(s.(weekInfo := week), WeekKey(week.startDate), db, countFails)
  }

  /**
   Re-entering the week the store already shows keeps that week: the
   re-normalisation in `UpdateWeekInfo` is harmless.
   */
  lemma UpdateWeekInfoKeepsCurrentWeek(s: StoreState, db: Db, countFails: bool)
    requires Coherent(s)
    ensures UpdateWeekInfo(s, s.weekInfo, db, countFails).weekInfo == s.weekInfo
  {
  }

  /** Any date of a week moves the store to that same week. */
  lemma UpdateWeekInfoAnyDayOfWeek(s: StoreState, w: WeekInfo, date: Moment, db: Db, countFails: bool)
    requires InWeekOf(date.day, GetWeekInfo(w.startDate).startDate.day)
    ensures UpdateWeekInfo(s, WeekInfo(date, w.endDate, w.deliveryDay), db, countFails).weekInfo
         == UpdateWeekInfo(s, w, db, countFails).weekInfo
  {
    SameWeekIff(w.startDate, date);
  }

  /** Replaces the slot list and recounts the current week's reservations. */
  function UpdateTimeSlots(s: StoreState, slots: seq<TimeSlot>, db: Db, countFails: bool): (r: StoreState)
    ensures r.timeSlots == slots && r.weekInfo == s.weekInfo
    ensures r.minReservations == s.minReservations && r.maxReservations == s.maxReservations
    ensures countFails ==> r.reservations == s.reservations && r.totalReservations == s.totalReservations
    ensures !countFails ==>
      r.reservations == r.totalReservations == |ReservationsOfWeek(db.reservations, WeekKey(s.weekInfo.startDate))|
    ensures Coherent(s) ==> Coherent(r)
  {
    SyncReservations(s.(timeSlots := slots), WeekKey(s.weekInfo.startDate), db, countFails)
  }

  /**
   Clears the store: no slots, both counters 0, thresholds 5 and 10, and
   the week of `now`.
   */
  function Reset(now: Moment): (r: StoreState)
    ensures Coherent(r)
    ensures r.timeSlots == [] && r.reservations == 0
    ensures Before(r.weekInfo.startDate, now) && Before(now, r.weekInfo.endDate)
  {
    WeekInfoIdempotent(now);
    StoreState([], 0, 0, MinReservations, MaxReservations, GetWeekInfo(now))
  }
}
