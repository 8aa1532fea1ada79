/**
 The storage-facing half of the reservation store: provisioning a week's
 slots, booking a slot, and closing a slot by hand.

 Every operation takes the database as a value and returns the database
 it leaves behind, together with the new store state. Which storage calls
 fail is an input (`SyncEnv`, `ReserveEnv`), so every error branch is an
 ordinary case.
 */
module Workflow {
  import opened Calendar
  import opened Storage
  import opened ReservationStore

  /** The bookable times of day, in the order they are created. */
  const TimeSlotLabels: seq<string> :=
    ["17:00", "17:30", "18:00", "18:30", "19:00", "19:30", "20:00", "20:30", "21:00", "21:30"]

  function DigitValue(c: char): int {
    (c as int) - ('0' as int)
  }

  /** Minutes since midnight of an `HH:MM` label. */
  function MinutesOf(hhmm: string): int
    requires |hhmm| == 5
  {
    (DigitValue(hhmm[0]) * 10 + DigitValue(hhmm[1])) * 60 + DigitValue(hhmm[3]) * 10 + DigitValue(hhmm[4])
  }

  /** Ten labels, half an hour apart, from 17:00 to 21:30. */
  lemma LabelsAreHalfHours()
    ensures |TimeSlotLabels| == 10
    ensures forall i :: 0 <= i < |TimeSlotLabels| ==>
      |TimeSlotLabels[i]| == 5 && MinutesOf(TimeSlotLabels[i]) == 17 * 60 + 30 * i
  {
  }

  /** No label occurs twice. */
  lemma LabelsDistinct()
    ensures forall i, j :: 0 <= i < j < |TimeSlotLabels| ==> TimeSlotLabels[i] != TimeSlotLabels[j]
  {
    LabelsAreHalfHours();
  }

  /** The rows provisioned for a week: one per label, each with capacity 1. */
  function ProvisionRows(week: int): (rows: seq<SlotRow>)
    ensures |rows| == |TimeSlotLabels|
    ensures forall i :: 0 <= i < |rows| ==> rows[i] == SlotRow(week, TimeSlotLabels[i], 1)
    ensures UniqueKeys(rows)
  {
    LabelsDistinct();
    seq(|TimeSlotLabels|, i requires 0 <= i < |TimeSlotLabels| => SlotRow(week, TimeSlotLabels[i], 1))
  }

  /** Slot rows as the page shows them: a slot is available while it has capacity. */
  function Publish(found: seq<StoredSlot>): (r: seq<TimeSlot>)
    ensures |r| == |found|
    ensures forall i :: 0 <= i < |r| ==>
      r[i].id == found[i].id && r[i].time == found[i].row.slotTime
      && (r[i].available <==> found[i].row.maxReservations > 0)
  {
    seq(|found|, i requires 0 <= i < |found| => TimeSlot(found[i].id, found[i].row.slotTime, found[i].row.maxReservations > 0))
  }

  /**
   What happens around one slot synchronisation. `busy`: a synchronisation
   is already running in this process. `raced`: another client provisions
   the same week between this client's first query and its insert. The
   other flags say which storage call fails.
   */
  datatype SyncEnv = SyncEnv(
    busy: bool,
    raced: bool,
    fetchFails: bool,
    insertFails: bool,
    refetchFails: bool,
    countFails: bool)

  datatype Synced = Synced(state: StoreState, db: Db)

  /** A week's slots after another client provisioned them successfully. */
  function ProvisionedBy(db: Db, week: int): Db {
    match InsertSlots(db, ProvisionRows(week), false)
    case Ok(after) => after
    case _ => db
  }

  /** The store shows only slot rows of its week, as they are stored in `db`. */
  predicate ShowsWeek(s: StoreState, db: Db) {
    forall i :: 0 <= i < |s.timeSlots| ==>
      var slot := s.timeSlots[i];
      && slot.id < |db.slots|
      && db.slots[slot.id].weekStart == WeekKey(s.weekInfo.startDate)
      && slot.time == db.slots[slot.id].slotTime
      && (slot.available <==> db.slots[slot.id].maxReservations > 0)
  }

  /** Publishes the rows found for the store's week and recounts reservations. */
  function ShowSlots(s: StoreState, found: seq<StoredSlot>, db: Db, countFails: bool): (r: StoreState)
    ensures |r.timeSlots| == |found|
    ensures forall i :: 0 <= i < |found| ==>
      r.timeSlots[i].id == found[i].id && r.timeSlots[i].time == found[i].row.slotTime
      && (r.timeSlots[i].available <==> found[i].row.maxReservations > 0)
    ensures r.weekInfo == s.weekInfo
    ensures r.minReservations == s.minReservations && r.maxReservations == s.maxReservations
    ensures countFails ==> r.reservations == s.reservations && r.totalReservations == s.totalReservations
    ensures !countFails ==> r.totalReservations == r.reservations
    ensures !countFails ==> r.reservations == |ReservationsOfWeek(db.reservations, WeekKey(s.weekInfo.startDate))|
    ensures Coherent(s) ==> Coherent(r)
  {
    UpdateTimeSlots(s, Publish(found), db, countFails)
  }

  /**
   Makes sure the store's week has its slots and shows them. The week's
   rows are fetched; when there are none, one row per label is inserted
   (a unique-key conflict means another client already did so, and is
   ignored) and the rows are fetched again. Any other failure leaves the
   store as it was. A call made while another one runs does nothing.
   */
  function SyncTimeSlots(s: StoreState, db: Db, env: SyncEnv): (r: Synced)
    ensures env.busy ==> r == Synced(s, db)
    ensures r.db.reservations == db.reservations && db.slots <= r.db.slots
    ensures UniqueKeys(db.slots) ==> UniqueKeys(r.db.slots)
    ensures r.state.weekInfo == s.weekInfo
    ensures r.state.minReservations == s.minReservations && r.state.maxReservations == s.maxReservations
    ensures r.state.timeSlots == s.timeSlots || ShowsWeek(r.state, r.db)
    ensures Coherent(s) ==> Coherent(r.state)
  {
    if env.busy then Synced(s, db)
    else
      var week := WeekKey(s.weekInfo.startDate);
      match SelectSlotsByWeek(db, week, env.fetchFails)
      case Ok(existing) =>
        if |existing| > 0 then Synced(ShowSlots(s, existing, db, env.countFails), db)
        else
          var seen := if env.raced then ProvisionedBy(db, week) else db;
          (match InsertSlots(seen, ProvisionRows(week), env.insertFails)
           case Err => Synced(s, seen)
           case Conflict => Refetch(s, seen, env)
           case Ok(after) => Refetch(s, after, env))
      case _ => Synced(s, db)
  }

  /**
   Whatever happens, the store either stays as it was or shows exactly the
   rows its week now has in the database, recounted.
   */
  lemma SyncKeepsOrShowsWeek(s: StoreState, db: Db, env: SyncEnv)
    ensures var r := SyncTimeSlots(s, db, env);
      r.state == s || r.state == ShowSlots(s, SlotsOfWeek(r.db.slots, WeekKey(s.weekInfo.startDate)), r.db, env.countFails)
  {
  }

  /** The second query of a provisioning synchronisation. */
  function Refetch(s: StoreState, db: Db, env: SyncEnv): (r: Synced)
    ensures r.db == db
    ensures env.refetchFails || SlotsOfWeek(db.slots, WeekKey(s.weekInfo.startDate)) == [] ==> r.state == s
    ensures !env.refetchFails && SlotsOfWeek(db.slots, WeekKey(s.weekInfo.startDate)) != [] ==>
      r.state == ShowSlots(s, SlotsOfWeek(db.slots, WeekKey(s.weekInfo.startDate)), db, env.countFails)
    ensures r.state.weekInfo == s.weekInfo
    ensures r.state.minReservations == s.minReservations && r.state.maxReservations == s.maxReservations
    ensures r.state.timeSlots == s.timeSlots || ShowsWeek(r.state, r.db)
    ensures Coherent(s) ==> Coherent(r.state)
  {
    match SelectSlotsByWeek(db, WeekKey(s.weekInfo.startDate), env.refetchFails)
    case Ok(found) =>
      if |found| > 0 then Synced(ShowSlots(s, found, db, env.countFails), db) else Synced(s, db)
    case _ => Synced(s, db)
  }

  /** The rows of `week` that the provisioning of `week` inserts into `db`. */
  function FreshWeek(db: Db, week: int): seq<StoredSlot> {
    var rows := ProvisionRows(week);
    seq(|rows|, i requires 0 <= i < |rows| => StoredSlot(|db.slots| + i, rows[i]))
  }

  /** Provisioning a week that has no rows yet succeeds unless the call fails. */
  lemma ProvisionFits(db: Db, week: int)
    requires UniqueKeys(db.slots) && WeekIsEmpty(db.slots, week)
    ensures UniqueKeys(db.slots + ProvisionRows(week))
    ensures SlotsOfWeek(db.slots + ProvisionRows(week), week) == FreshWeek(db, week)
  {
    var rows := ProvisionRows(week);
    UniqueKeysAppend(db.slots, rows);
    SlotsOfWeekFreshBatch(db.slots, rows, week);
  }

  /** Inserting the same week's rows a second time is refused by the unique key. */
  lemma ProvisionTwiceConflicts(db: Db, week: int, fails: bool)
    ensures !fails ==> InsertSlots(Db(db.slots + ProvisionRows(week), db.reservations), ProvisionRows(week), fails).Conflict?
  {
    var rows := ProvisionRows(week);
    var n := |db.slots|;
    var twice := db.slots + rows + rows;
    assert twice[n] == twice[n + |rows|];
    assert !UniqueKeys(twice);
  }

  /** A failed first query leaves store and database as they were. */
  lemma SyncFetchFailureKeepsState(s: StoreState, db: Db, env: SyncEnv)
    requires env.fetchFails
    ensures SyncTimeSlots(s, db, env) == Synced(s, db)
  {
  }

  /**
   A week that already has rows is not provisioned again: the database is
   unchanged (no insert, capacities untouched) and the store shows those rows.
   */
  lemma SyncExistingWeekInsertsNothing(s: StoreState, db: Db, env: SyncEnv)
    requires !env.busy && !env.fetchFails
    requires !WeekIsEmpty(db.slots, WeekKey(s.weekInfo.startDate))
    ensures SyncTimeSlots(s, db, env).db == db
    ensures SyncTimeSlots(s, db, env).state
         == ShowSlots(s, SlotsOfWeek(db.slots, WeekKey(s.weekInfo.startDate)), db, env.countFails)
  {
    SlotsOfWeekEmptyIff(db.slots, WeekKey(s.weekInfo.startDate));
  }

  /**
   Provisioning an empty week stores exactly one row per label, each with
   capacity 1, whether this client inserted them or another client raced
   it to it (its insert then meets the unique key and is ignored). The
   week never ends up with the rows twice.
   */
  lemma SyncProvisionsEmptyWeek(s: StoreState, db: Db, env: SyncEnv)
    requires UniqueKeys(db.slots)
    requires !env.busy && !env.fetchFails && WeekIsEmpty(db.slots, WeekKey(s.weekInfo.startDate))
    requires env.raced || !env.insertFails
    ensures SyncTimeSlots(s, db, env).db == Db(db.slots + ProvisionRows(WeekKey(s.weekInfo.startDate)), db.reservations)
    ensures SlotsOfWeek(SyncTimeSlots(s, db, env).db.slots, WeekKey(s.weekInfo.startDate))
         == FreshWeek(db, WeekKey(s.weekInfo.startDate))
    ensures !env.refetchFails && !(env.raced && env.insertFails) ==>
      SyncTimeSlots(s, db, env).state == ShowSlots(s, FreshWeek(db, WeekKey(s.weekInfo.startDate)), db.(slots := db.slots + ProvisionRows(WeekKey(s.weekInfo.startDate))), env.countFails)
  {
    var week := WeekKey(s.weekInfo.startDate);
    SlotsOfWeekEmptyIff(db.slots, week);
    ProvisionFits(db, week);
    if env.raced {
      ProvisionTwiceConflicts(db, week, env.insertFails);
    }
  }

  /**
   When this client's own insert fails for any reason other than the
   unique key, the synchronisation stops and the store is unchanged; the
   database holds only what another client may have inserted meanwhile.
   */
  lemma SyncInsertFailureKeepsState(s: StoreState, db: Db, env: SyncEnv)
    requires !env.busy && !env.fetchFails && env.insertFails
    requires WeekIsEmpty(db.slots, WeekKey(s.weekInfo.startDate))
    ensures SyncTimeSlots(s, db, env).state == s
    ensures SyncTimeSlots(s, db, env).db == if env.raced then ProvisionedBy(db, WeekKey(s.weekInfo.startDate)) else db
  {
    SlotsOfWeekEmptyIff(db.slots, WeekKey(s.weekInfo.startDate));
  }

  /**
   When the second query of a provisioning synchronisation fails, the
   store keeps the slots it showed; the inserted rows stay in the database.
   */
  lemma SyncRefetchFailureKeepsState(s: StoreState, db: Db, env: SyncEnv)
    requires UniqueKeys(db.slots)
    requires !env.busy && !env.fetchFails && env.refetchFails && WeekIsEmpty(db.slots, WeekKey(s.weekInfo.startDate))
    requires env.raced || !env.insertFails
    ensures SyncTimeSlots(s, db, env).state == s
    ensures SyncTimeSlots(s, db, env).db == Db(db.slots + ProvisionRows(WeekKey(s.weekInfo.startDate)), db.reservations)
  {
    SyncProvisionsEmptyWeek(s, db, env);
  }

  /** A freshly provisioned week shows ten available slots, in label order. */
  lemma FreshWeekShowsLabels(s: StoreState, db: Db, week: int, countFails: bool)
    ensures |ShowSlots(s, FreshWeek(db, week), db, countFails).timeSlots| == |TimeSlotLabels|
    ensures forall i :: 0 <= i < |TimeSlotLabels| ==>
      ShowSlots(s, FreshWeek(db, week), db, countFails).timeSlots[i] == TimeSlot(|db.slots| + i, TimeSlotLabels[i], true)
  {
  }

  /**
   Synchronising twice provisions at most once: after a first
   synchronisation of an empty week, a second one inserts nothing.
   */
  lemma SyncTwiceProvisionsOnce(s: StoreState, db: Db, env1: SyncEnv, env2: SyncEnv)
    requires UniqueKeys(db.slots)
    requires !env1.busy && !env1.fetchFails && WeekIsEmpty(db.slots, WeekKey(s.weekInfo.startDate))
    requires env1.raced || !env1.insertFails
    ensures SyncTimeSlots(SyncTimeSlots(s, db, env1).state, SyncTimeSlots(s, db, env1).db, env2).db
         == SyncTimeSlots(s, db, env1).db
  {
    var week := WeekKey(s.weekInfo.startDate);
    var first := SyncTimeSlots(s, db, env1);
    SyncProvisionsEmptyWeek(s, db, env1);
    assert first.db.slots[|db.slots|].weekStart == week;
    if !env2.busy && !env2.fetchFails {
      SyncExistingWeekInsertsNothing(first.state, first.db, env2);
    }
  }

  // ---------------------------------------------------------------------
  // Booking a slot
  // ---------------------------------------------------------------------

  /** The kinds of `ReservationError`; the first two are never produced. */
  datatype ErrorKind = EmailExists | PhoneExists | SlotUnavailable | DatabaseError

  datatype ReservationResult = Success | Failure(kind: ErrorKind)

  /** A booking request, as the payment page submits it. */
  datatype Reservation = Reservation(
    firstName: string,
    lastName: string,
    email: string,
    phone: string,
    timeSlotId: SlotId,
    weekStart: Moment)

  /**
   Which storage calls of one booking fail, and what happens around the
   slot synchronisation that ends a successful booking.
   */
  datatype ReserveEnv = ReserveEnv(fetchFails: bool, insertFails: bool, updateFails: bool, sync: SyncEnv)

  datatype Reply = Reply(result: ReservationResult, state: StoreState, db: Db)

  function Max(a: int, b: int): int {
    if a < b then b else a
  }

  /** The confirmed row a booking of `slot` writes. */
  function ConfirmedRow(res: Reservation, slot: SlotRow): (row: ReservationRow)
    ensures row.firstName == res.firstName && row.lastName == res.lastName
    ensures row.email == res.email && row.phone == res.phone
    ensures row.timeSlotId == res.timeSlotId && row.slotTime == slot.slotTime
    ensures row.weekStart == WeekKey(res.weekStart) && row.status == Confirmed
  {
    ReservationRow(res.firstName, res.lastName, res.email, res.phone,
                   res.timeSlotId, slot.slotTime, WeekKey(res.weekStart), Confirmed)
  }

  /**
   The database after a booking of `res` has been recorded: the confirmed
   row appended and, unless that update failed, the slot's capacity
   lowered by one.
   */
  function Recorded(db: Db, res: Reservation, updateFails: bool): (after: Db)
    requires res.timeSlotId < |db.slots|
    ensures after.reservations == db.reservations + [ConfirmedRow(res, db.slots[res.timeSlotId])]
    ensures |after.slots| == |db.slots|
    ensures forall i :: 0 <= i < |db.slots| && i != res.timeSlotId ==> after.slots[i] == db.slots[i]
    ensures after.slots[res.timeSlotId] == db.slots[res.timeSlotId].(maxReservations :=
      if updateFails then db.slots[res.timeSlotId].maxReservations else db.slots[res.timeSlotId].maxReservations - 1)
  {
    var id := res.timeSlotId;
    var slots := if updateFails then db.slots
      else db.slots[id := db.slots[id].(maxReservations := db.slots[id].maxReservations - 1)];
    Db(slots, db.reservations + [ConfirmedRow(res, db.slots[id])])
  }

  /**
   Books a slot: fetch the slot, refuse it when it has no capacity left,
   insert a confirmed reservation, lower the slot's capacity by one (never
   below 0; a failure here is ignored because the reservation exists),
   then synchronise the store's slots.
   */
  function AddReservation(s: StoreState, db: Db, res: Reservation, env: ReserveEnv): (r: Reply)
    ensures r.result == Failure(DatabaseError) <==>
      env.fetchFails || res.timeSlotId >= |db.slots|
      || (db.slots[res.timeSlotId].maxReservations > 0 && env.insertFails)
    ensures r.result == Failure(SlotUnavailable) <==>
      !env.fetchFails && res.timeSlotId < |db.slots| && db.slots[res.timeSlotId].maxReservations <= 0
    ensures r.result.Success? || r.result == Failure(DatabaseError) || r.result == Failure(SlotUnavailable)
    ensures !r.result.Success? ==> r.state == s && r.db == db
    ensures r.result.Success? ==>
      && res.timeSlotId < |db.slots|
      && r.db.reservations == db.reservations + [ConfirmedRow(res, db.slots[res.timeSlotId])]
      && |db.slots| <= |r.db.slots|
      && r.db.slots[res.timeSlotId].maxReservations
         == (if env.updateFails then db.slots[res.timeSlotId].maxReservations
             else db.slots[res.timeSlotId].maxReservations - 1)
      && forall i :: 0 <= i < |db.slots| && i != res.timeSlotId ==> r.db.slots[i] == db.slots[i]
    ensures r.result.Success? ==>
      r.db.slots[res.timeSlotId] == db.slots[res.timeSlotId].(maxReservations := r.db.slots[res.timeSlotId].maxReservations)
    ensures r.result.Success? ==> r.db.slots[res.timeSlotId].maxReservations >= 0
    ensures r.result.Success? ==>
      r.state.weekInfo == s.weekInfo && (r.state.timeSlots == s.timeSlots || ShowsWeek(r.state, r.db))
    ensures r.result.Success? ==>
      Synced(r.state, r.db) == SyncTimeSlots(s, Recorded(db, res, env.updateFails), env.sync)
    ensures Coherent(s) ==> Coherent(r.state)
  {
    match SelectSlotById(db, res.timeSlotId, env.fetchFails)
    case Ok(slot) =>
      if slot.maxReservations <= 0 then Reply(Failure(SlotUnavailable), s, db)
      else
        (match InsertReservation(db, ConfirmedRow(res, slot), env.insertFails)
         case Ok(booked) =>
           var decremented := match UpdateSlotCapacity(booked, res.timeSlotId, Max(0, slot.maxReservations - 1), env.updateFails)
             case Ok(after) => after
             case _ => booked;
           var synced := SyncTimeSlots(s, decremented, env.sync);
           Reply(Success, synced.state, synced.db)
         case _ => Reply(Failure(DatabaseError), s, db))
    case _ => Reply(Failure(DatabaseError), s, db)
  }

  /**
   A successful booking of the last place of a slot in the store's week
   shows that slot as taken once the store has refreshed.
   */
  lemma BookingShowsSlotTaken(s: StoreState, db: Db, res: Reservation, env: ReserveEnv)
    requires res.timeSlotId < |db.slots| && db.slots[res.timeSlotId].maxReservations == 1
    requires db.slots[res.timeSlotId].weekStart == WeekKey(s.weekInfo.startDate)
    requires !env.fetchFails && !env.insertFails && !env.updateFails
    requires !env.sync.busy && !env.sync.fetchFails
    ensures AddReservation(s, db, res, env).result.Success?
    ensures TimeSlot(res.timeSlotId, db.slots[res.timeSlotId].slotTime, false)
         in AddReservation(s, db, res, env).state.timeSlots
  {
    var id := res.timeSlotId;
    var week := WeekKey(s.weekInfo.startDate);
    var after := Recorded(db, res, false);
    var r := AddReservation(s, db, res, env);
    SlotsOfWeekComplete(after.slots, week, id);
    var found := SlotsOfWeek(after.slots, week);
    var k :| 0 <= k < |found| && found[k].id == id;
    assert r.state == ShowSlots(s, found, after, env.sync.countFails);
    assert r.state.timeSlots[k] == TimeSlot(id, db.slots[id].slotTime, false);
  }

  /**
   Once a booking of a capacity-1 slot has succeeded and its decrement went
   through, any later booking of that slot is refused as unavailable.
   */
  lemma SecondBookingUnavailable(s: StoreState, db: Db, first: Reservation, e1: ReserveEnv,
                                 second: Reservation, e2: ReserveEnv)
    requires first.timeSlotId < |db.slots| && db.slots[first.timeSlotId].maxReservations == 1
    requires AddReservation(s, db, first, e1).result.Success? && !e1.updateFails
    requires second.timeSlotId == first.timeSlotId && !e2.fetchFails
    ensures AddReservation(AddReservation(s, db, first, e1).state, AddReservation(s, db, first, e1).db, second, e2)
         == Reply(Failure(SlotUnavailable), AddReservation(s, db, first, e1).state, AddReservation(s, db, first, e1).db)
  {
  }

  /**
   The bookkeeping that rules out double booking: every slot has a
   non-negative capacity, and its capacity plus the reservations holding
   it is at most the 1 it was created with.
   */
  ghost predicate Ledger(db: Db) {
    && WellFormed(db)
    && forall i :: 0 <= i < |db.slots| ==>
         0 <= db.slots[i].maxReservations && Booked(db.reservations, i) + db.slots[i].maxReservations <= 1
  }

  /** Under the ledger no slot is ever held by two reservations. */
  lemma LedgerAtMostOneBooking(db: Db, id: SlotId)
    requires Ledger(db) && id < |db.slots|
    ensures Booked(db.reservations, id) <= 1
    ensures Booked(db.reservations, id) == 1 ==> db.slots[id].maxReservations == 0
  {
  }

  /** Provisioned rows start with capacity 1 and nothing booked, which keeps the ledger. */
  lemma {:induction false} SyncKeepsLedger(s: StoreState, db: Db, env: SyncEnv)
    requires Ledger(db)
    ensures Ledger(SyncTimeSlots(s, db, env).db)
  {
    var after := SyncTimeSlots(s, db, env).db;
    var week := WeekKey(s.weekInfo.startDate);
    if after != db {
      assert !env.busy && !env.fetchFails && SlotsOfWeek(db.slots, week) == [];
      SlotsOfWeekEmptyIff(db.slots, week);
      ProvisionFits(db, week);
      if env.raced {
        ProvisionTwiceConflicts(db, week, env.insertFails);
      }
      assert after == Db(db.slots + ProvisionRows(week), db.reservations);
      forall i | |db.slots| <= i < |after.slots|
        ensures Booked(after.reservations, i) == 0
      {
        BookedUnreferenced(db.reservations, i);
      }
    }
  }

  /**
   A booking whose decrement succeeds keeps the ledger: the new reservation
   takes exactly the unit of capacity it removes.
   */
  lemma AddReservationKeepsLedger(s: StoreState, db: Db, res: Reservation, env: ReserveEnv)
    requires Ledger(db) && !env.updateFails
    ensures Ledger(AddReservation(s, db, res, env).db)
  {
    var r := AddReservation(s, db, res, env);
    if r.result.Success? {
      var id := res.timeSlotId;
      var row := ConfirmedRow(res, db.slots[id]);
      var booked := Db(db.slots, db.reservations + [row]);
      var decremented := booked.(slots := booked.slots[id := booked.slots[id].(maxReservations := db.slots[id].maxReservations - 1)]);
      forall i | 0 <= i < |decremented.slots|
        ensures Booked(decremented.reservations, i) + decremented.slots[i].maxReservations <= 1
      {
        BookedAppend(db.reservations, row, i);
      }
      assert Ledger(decremented);
      assert decremented == Recorded(db, res, false);
      SyncKeepsLedger(s, decremented, env.sync);
    }
  }

  /**
   When the decrement after a booking fails, the slot keeps its capacity
   and a second booking of it succeeds too: the slot ends up held by two
   reservations. This is the window the booking accepts by ignoring that
   failure.
   */
  lemma FailedDecrementAllowsDoubleBooking(s: StoreState, db: Db, first: Reservation, e1: ReserveEnv,
                                           second: Reservation, e2: ReserveEnv)
    requires Ledger(db) && first.timeSlotId < |db.slots| && db.slots[first.timeSlotId].maxReservations == 1
    requires !e1.fetchFails && !e1.insertFails && e1.updateFails
    requires second.timeSlotId == first.timeSlotId && !e2.fetchFails && !e2.insertFails
    ensures AddReservation(s, db, first, e1).result.Success?
    ensures AddReservation(AddReservation(s, db, first, e1).state, AddReservation(s, db, first, e1).db, second, e2).result.Success?
    ensures Booked(AddReservation(AddReservation(s, db, first, e1).state, AddReservation(s, db, first, e1).db, second, e2).db.reservations,
                   first.timeSlotId) == 2
  {
    var id := first.timeSlotId;
    var one := AddReservation(s, db, first, e1);
    var two := AddReservation(one.state, one.db, second, e2);
    assert Booked(db.reservations, id) == 0;
    BookedAppend(db.reservations, ConfirmedRow(first, db.slots[id]), id);
    BookedAppend(one.db.reservations, ConfirmedRow(second, one.db.slots[id]), id);
  }

  // ---------------------------------------------------------------------
  // Closing a slot by hand
  // ---------------------------------------------------------------------

  datatype Closed = Closed(ok: bool, state: StoreState, db: Db)

  /**
   Sets a slot's capacity to 0 in the database and, when that succeeds,
   marks it unavailable in the store.
   */
  function ReserveTimeSlot(s: StoreState, db: Db, id: SlotId, fails: bool): (r: Closed)
    ensures r.ok <==> !fails
    ensures !r.ok ==> r.state == s && r.db == db
    ensures r.ok ==> r.db.reservations == db.reservations && |r.db.slots| == |db.slots|
    ensures r.ok ==> forall i :: 0 <= i < |db.slots| ==>
      r.db.slots[i] == if i == id then db.slots[i].(maxReservations := 0) else db.slots[i]
    ensures r.ok ==> r.state == s.(timeSlots := r.state.timeSlots) && |r.state.timeSlots| == |s.timeSlots|
    ensures r.ok ==> forall i :: 0 <= i < |s.timeSlots| ==>
      r.state.timeSlots[i] == if s.timeSlots[i].id == id then s.timeSlots[i].(available := false) else s.timeSlots[i]
  {
    match UpdateSlotCapacity(db, id, 0, fails)
    case Ok(after) => Closed(true, UpdateTimeSlot(s, id, false), after)
    case _ => Closed(false, s, db)
  }

  /** Closing a slot keeps the ledger and keeps a store that showed its week showing it. */
  lemma ReserveTimeSlotKeepsInvariants(s: StoreState, db: Db, id: SlotId, fails: bool)
    requires Ledger(db) && ShowsWeek(s, db)
    ensures Ledger(ReserveTimeSlot(s, db, id, fails).db)
    ensures ShowsWeek(ReserveTimeSlot(s, db, id, fails).state, ReserveTimeSlot(s, db, id, fails).db)
  {
  }
}
