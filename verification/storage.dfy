/**
 The database behind the reservation store, as a value.

 Two tables: `time_slots`, whose rows are identified by their position
 (rows are never deleted, so a position is a stable id), and
 `reservations`. Every call takes a `fails` flag standing for a network or
 server error the client cannot predict, and answers with a tagged outcome:
 `Ok`, `Conflict` (the unique key on `(week_start, slot_time)` refused an
 insert) or `Err` (any other error).
 */
module Storage {

  type SlotId = nat

  /** A `time_slots` row; `maxReservations` is the remaining capacity. */
  datatype SlotRow = SlotRow(weekStart: int, slotTime: string, maxReservations: int)

  datatype Status = Confirmed

  /** A `reservations` row. */
  datatype ReservationRow = ReservationRow(
    firstName: string,
    lastName: string,
    email: string,
    phone: string,
    timeSlotId: SlotId,
    slotTime: string,
    weekStart: int,
    status: Status)

  datatype Db = Db(slots: seq<SlotRow>, reservations: seq<ReservationRow>)

  /** A slot row as a query returns it, together with its id. */
  datatype StoredSlot = StoredSlot(id: SlotId, row: SlotRow)

  datatype Outcome<+T> = Ok(value: T) | Conflict | Err

  predicate SameKey(a: SlotRow, b: SlotRow) {
    a.weekStart == b.weekStart && a.slotTime == b.slotTime
  }

  /** The unique constraint on `(week_start, slot_time)`. */
  predicate UniqueKeys(slots: seq<SlotRow>) {
    forall i, j :: 0 <= i < j < |slots| ==> !SameKey(slots[i], slots[j])
  }

  /** Every reservation refers to an existing slot (the foreign key). */
  predicate ReferencesExist(db: Db) {
    forall k :: 0 <= k < |db.reservations| ==> db.reservations[k].timeSlotId < |db.slots|
  }

  /** What the database itself guarantees about its tables. */
  predicate WellFormed(db: Db) {
    UniqueKeys(db.slots) && ReferencesExist(db)
  }

  /** `week` has no row in `slots`. */
  predicate WeekIsEmpty(slots: seq<SlotRow>, week: int) {
    forall i :: 0 <= i < |slots| ==> slots[i].weekStart != week
  }

  /** The rows of `slots` that belong to `week`, with their ids, in table order. */
  function SlotsOfWeek(slots: seq<SlotRow>, week: int): (r: seq<StoredSlot>)
    ensures forall k :: 0 <= k < |r| ==>
      r[k].id < |slots| && slots[r[k].id] == r[k].row && r[k].row.weekStart == week
    ensures forall k :: 0 < k < |r| ==> r[k - 1].id < r[k].id
  {
    if |slots| == 0 then []
    else
      var n := |slots| - 1;
      var front := SlotsOfWeek(slots[..n], week);
      if slots[n].weekStart == week then front + [StoredSlot(n, slots[n])] else front
  }

  /** Every row of `week` is among those `SlotsOfWeek` returns. */
  lemma {:induction false} SlotsOfWeekComplete(slots: seq<SlotRow>, week: int, i: nat)
    requires i < |slots| && slots[i].weekStart == week
    ensures exists k :: 0 <= k < |SlotsOfWeek(slots, week)| && SlotsOfWeek(slots, week)[k].id == i
  {
    var n := |slots| - 1;
    var front := SlotsOfWeek(slots[..n], week);
    if i == n {
      assert SlotsOfWeek(slots, week)[|front|].id == n;
    } else {
      SlotsOfWeekComplete(slots[..n], week, i);
      var k :| 0 <= k < |front| && front[k].id == i;
      assert SlotsOfWeek(slots, week)[k].id == i;
    }
  }

  /** A week has no rows exactly when `SlotsOfWeek` finds none. */
  lemma {:induction false} SlotsOfWeekEmptyIff(slots: seq<SlotRow>, week: int)
    ensures SlotsOfWeek(slots, week) == [] <==> WeekIsEmpty(slots, week)
  {
    if |slots| > 0 {
      SlotsOfWeekEmptyIff(slots[..|slots| - 1], week);
    }
    if exists i :: 0 <= i < |slots| && slots[i].weekStart == week {
      var i :| 0 <= i < |slots| && slots[i].weekStart == week;
      SlotsOfWeekComplete(slots, week, i);
    }
  }

  /**
   Appending rows that all belong to `week` to a table with none of that
   week: the query returns exactly the appended rows, with the ids they got.
   */
  lemma {:induction false} SlotsOfWeekFreshBatch(slots: seq<SlotRow>, rows: seq<SlotRow>, week: int)
    requires WeekIsEmpty(slots, week)
    requires forall j :: 0 <= j < |rows| ==> rows[j].weekStart == week
    ensures SlotsOfWeek(slots + rows, week) == seq(|rows|, j requires 0 <= j < |rows| => StoredSlot(|slots| + j, rows[j]))
  {
    if |rows| == 0 {
      assert slots + rows == slots;
      SlotsOfWeekEmptyIff(slots, week);
    } else {
      var m := |rows| - 1;
      assert (slots + rows)[..|slots| + m] == slots + rows[..m];
      SlotsOfWeekFreshBatch(slots, rows[..m], week);
    }
  }

  /** `select * from time_slots where week_start = week`. */
  function SelectSlotsByWeek(db: Db, week: int, fails: bool): (r: Outcome<seq<StoredSlot>>)
    ensures r.Ok? <==> !fails
    ensures !r.Conflict?
    ensures r.Ok? ==> forall k :: 0 <= k < |r.value| ==>
      r.value[k].id < |db.slots| && db.slots[r.value[k].id] == r.value[k].row && r.value[k].row.weekStart == week
    ensures r.Ok? ==> forall i :: 0 <= i < |db.slots| && db.slots[i].weekStart == week ==>
      exists k :: 0 <= k < |r.value| && r.value[k].id == i
  {
    if fails then Err
    else
      forall i | 0 <= i < |db.slots| && db.slots[i].weekStart == week
        ensures exists k :: 0 <= k < |SlotsOfWeek(db.slots, week)| && SlotsOfWeek(db.slots, week)[k].id == i
      {
        SlotsOfWeekComplete(db.slots, week, i);
      }
      Ok(SlotsOfWeek(db.slots, week))
  }

  /** `select * from time_slots where id = id`, expecting a single row. */
  function SelectSlotById(db: Db, id: SlotId, fails: bool): (r: Outcome<SlotRow>)
    ensures r.Ok? <==> !fails && id < |db.slots|
    ensures r.Ok? ==> r.value == db.slots[id]
    ensures !r.Conflict?
  {
    if fails || id >= |db.slots| then Err else Ok(db.slots[id])
  }

  /**
   Inserts a batch of slot rows, all or nothing. The batch is refused as a
   conflict when the table would then hold two rows with the same key.
   */
  function InsertSlots(db: Db, rows: seq<SlotRow>, fails: bool): (r: Outcome<Db>)
    ensures fails ==> r.Err?
    ensures r.Conflict? <==> !fails && !UniqueKeys(db.slots + rows)
    ensures r.Ok? ==> r.value == Db(db.slots + rows, db.reservations)
    ensures r.Ok? ==> UniqueKeys(r.value.slots)
    ensures !fails && UniqueKeys(db.slots + rows) ==> r.Ok?
  {
    if fails then Err
    else if UniqueKeys(db.slots + rows) then Ok(Db(db.slots + rows, db.reservations))
    else Conflict
  }

  /** Two key-unique tables that share no key stay key-unique together. */
  lemma UniqueKeysAppend(a: seq<SlotRow>, b: seq<SlotRow>)
    requires UniqueKeys(a) && UniqueKeys(b)
    requires forall i, j :: 0 <= i < |a| && 0 <= j < |b| ==> !SameKey(a[i], b[j])
    ensures UniqueKeys(a + b)
  {
    forall i, j | 0 <= i < j < |a + b|
      ensures !SameKey((a + b)[i], (a + b)[j])
    {
      if j < |a| {
      } else if i < |a| {
        assert !SameKey(a[i], b[j - |a|]);
      } else {
        assert !SameKey(b[i - |a|], b[j - |a|]);
      }
    }
  }

  /** Inserts a reservation row; a row naming no existing slot is refused. */
  function InsertReservation(db: Db, row: ReservationRow, fails: bool): (r: Outcome<Db>)
    ensures r.Ok? <==> !fails && row.timeSlotId < |db.slots|
    ensures r.Ok? ==> r.value == Db(db.slots, db.reservations + [row])
    ensures !r.Conflict?
  {
    if fails || row.timeSlotId >= |db.slots| then Err
    else Ok(Db(db.slots, db.reservations + [row]))
  }

  /**
   `update time_slots set max_reservations = value where id = id`. An id
   that matches no row updates nothing and is not an error.
   */
  function UpdateSlotCapacity(db: Db, id: SlotId, value: int, fails: bool): (r: Outcome<Db>)
    ensures r.Ok? <==> !fails
    ensures r.Ok? ==> r.value.reservations == db.reservations && |r.value.slots| == |db.slots|
    ensures r.Ok? ==> forall i :: 0 <= i < |db.slots| ==>
      r.value.slots[i] == if i == id then db.slots[i].(maxReservations := value) else db.slots[i]
    ensures !r.Conflict?
  {
    if fails then Err
    else if id < |db.slots| then Ok(db.(slots := db.slots[id := db.slots[id].(maxReservations := value)]))
    else Ok(db)
  }

  /** The reservations of `rs` whose `week_start` is `week`, in table order. */
  function ReservationsOfWeek(rs: seq<ReservationRow>, week: int): (r: seq<ReservationRow>)
    ensures forall x :: multiset(r)[x] == if x.weekStart == week then multiset(rs)[x] else 0
  {
    if |rs| == 0 then []
    else
      assert rs == rs[..|rs| - 1] + [rs[|rs| - 1]];
      if rs[|rs| - 1].weekStart == week then ReservationsOfWeek(rs[..|rs| - 1], week) + [rs[|rs| - 1]]
      else ReservationsOfWeek(rs[..|rs| - 1], week)
  }

  /** `select * from reservations where week_start = week`. */
  function SelectReservationsByWeek(db: Db, week: int, fails: bool): (r: Outcome<seq<ReservationRow>>)
    ensures r.Ok? <==> !fails
    ensures !r.Conflict?
    ensures r.Ok? ==> forall x :: multiset(r.value)[x] == if x.weekStart == week then multiset(db.reservations)[x] else 0
  {
    if fails then Err else Ok(ReservationsOfWeek(db.reservations, week))
  }

  /** The number of reservations in `rs` that hold slot `id`. */
  function Booked(rs: seq<ReservationRow>, id: SlotId): (n: nat)
    ensures n <= |rs|
  {
    if |rs| == 0 then 0
    else Booked(rs[..|rs| - 1], id) + (if rs[|rs| - 1].timeSlotId == id then 1 else 0)
  }

  /** Appending a reservation books its own slot once more and no other. */
  lemma BookedAppend(rs: seq<ReservationRow>, row: ReservationRow, id: SlotId)
    ensures Booked(rs + [row], id) == Booked(rs, id) + (if row.timeSlotId == id then 1 else 0)
  {
    assert (rs + [row])[..|rs|] == rs;
  }

  /** A slot that no reservation refers to is booked zero times. */
  lemma {:induction false} BookedUnreferenced(rs: seq<ReservationRow>, id: SlotId)
    requires forall k :: 0 <= k < |rs| ==> rs[k].timeSlotId != id
    ensures Booked(rs, id) == 0
  {
    if |rs| > 0 {
      BookedUnreferenced(rs[..|rs| - 1], id);
    }
  }
}
