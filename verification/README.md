# Pizza-night reservations and contact form, modelled in Dafny

This project models the two stores behind a weekly pizza-delivery booking
site. Each week runs Monday to Sunday and delivers on Friday. Each week has
ten half-hour slots between 17:00 and 21:30, and each slot can be booked
once. A contact form collects the customer's name, e-mail, phone number and
chosen slot.

- `calendar.dfy` (`Calendar`): dates as day numbers and `getWeekInfo`.
  Day 0 is 1970-01-01, a Thursday, and weekdays are numbered as
  `Date.getDay` numbers them, 0 being Sunday.
- `storage.dfy` (`Storage`): the database, as a value.
  - The `time_slots` table is a sequence whose positions are the slot ids,
    and it carries the unique key on `(week_start, slot_time)`.
  - The `reservations` table refers to `time_slots` by id.
  - Every query takes a flag saying whether it fails, and answers
    `Ok`, `Conflict` (unique-key violation) or `Err`.
- `store.dfy` (`ReservationStore`): the in-memory state of the reservation
  store and its copy-on-write mutators.
- `workflow.dfy` (`Workflow`): the operations that talk to the database.
  - `syncTimeSlots` provisions a week's slots.
  - `addReservation` books a slot.
  - `reserveTimeSlot` closes a slot by hand.
  - Each of them returns the new store state together with the database it
    leaves behind.
- `pattern.dfy` (`Pattern`): the fragment of JavaScript regular expressions
  the form uses, as a matcher over item sequences.
- `formats.dfy` (`Formats`): the e-mail and phone expressions written
  out item by item. Each is proved equal to an independent description of
  the strings it accepts.
- `form.dfy` (`Form`): field validation and the form store's transitions.

The main results:

- Week normalisation is idempotent. Two dates share a week exactly when
  they share a Monday-to-Sunday span.
- Provisioning inserts exactly one row per label, each with capacity 1.
  This holds even when another client races the insert. Provisioning never
  happens twice.
- `addReservation` produces exactly the errors it should, and changes nothing
  when it fails.
- A ledger invariant holds whenever the capacity decrement succeeds: each
  slot's remaining capacity plus its reservations is at most 1. So, as
  long as bookings run one after another, no slot is booked twice. When the decrement fails, the code ignores the failure,
  and a concrete double booking follows.
- Validating a field refuses exactly the values outside an independent
  description:
  - names of 2 to 50 characters;
  - addresses of the form `A@B.C`;
  - phone numbers as a deterministic left-to-right scan reads them.
- Every state the form store reaches shows the errors of exactly the
  touched fields. `isValid` says whether all five fields are accepted.

## Model

| member | source | states |
|---|---|---|
| Calendar.Weekday | src/lib/stores/reservation.ts:397 | the day of the week of a day number, 0 (Sunday) to 6 (Saturday) |
| Calendar.Clock | src/lib/stores/reservation.ts:409-419 | `setHours(h, m, s, ms)` gives the time of day whose hour, minute, second and millisecond are h, m, s and ms |
| Calendar.DaysSinceMonday | src/lib/stores/reservation.ts:399-404 | the offset back to Monday lies in 0..6 and lands on a Monday (6 on a Sunday) |
| Calendar.GetWeekInfo | src/lib/stores/reservation.ts:395-426 | start is a Monday at 00:00, end is start + 6 days (a Sunday) at 23:59:59.999, delivery is start + 4 days (a Friday) at 00:00, and the date lies between start and end |
| Calendar.MondayOffsetUnique | src/lib/stores/reservation.ts:404-408 | the offset to Monday is the only one in 0..6 that reaches a Monday |
| Calendar.WeekStartIff | src/lib/stores/reservation.ts:404-409 | a date's week starts on `s` exactly when `s` is a Monday at most 6 days before it |
| Calendar.WeekInfoOfMonday | src/lib/stores/reservation.ts:406-425 | the whole WeekInfo is determined by the Monday of the span |
| Calendar.SameWeekSameInfo | src/lib/stores/reservation.ts:395-426 | any two dates in the same Monday-to-Sunday span give the same WeekInfo |
| Calendar.SameWeekIff | src/lib/stores/reservation.ts:395-426 | two dates give the same WeekInfo exactly when they share a span |
| Calendar.WeekInfoIdempotent | src/lib/stores/reservation.ts:94-96 | normalising a week's start date gives the same week back |
| Calendar.WeekInfoOfOwnDates | src/lib/stores/reservation.ts:411-425 | normalising a week's end or delivery date also gives the same week |
| Calendar.SundayBelongsToPrecedingMonday | src/lib/stores/reservation.ts:400-404 | Sunday 2024-06-09 belongs to the week starting Monday 2024-06-03 |
| Storage.SlotsOfWeek | src/lib/stores/reservation.ts:278-281 | the rows returned belong to the week, carry their own ids and come in table order |
| Storage.SlotsOfWeekComplete | src/lib/stores/reservation.ts:278-281 | every row of the week is returned |
| Storage.SlotsOfWeekEmptyIff | src/lib/stores/reservation.ts:288 | the query is empty exactly when the week has no row |
| Storage.SlotsOfWeekFreshBatch | src/lib/stores/reservation.ts:308-312 | after a batch of one week is appended to a table without that week, the query returns exactly that batch with its new ids |
| Storage.SelectSlotsByWeek | src/lib/stores/reservation.ts:278-281 | succeeds exactly when the call works, and then returns every row of the week and only those, each with its id |
| Storage.SelectSlotById | src/lib/stores/reservation.ts:110-114 | `.single()` succeeds exactly when the call works and the id exists, and returns that row |
| Storage.InsertSlots | src/lib/stores/reservation.ts:296 | a failed call is an error; otherwise the insert is a conflict exactly when it would break the unique key, and a successful one appends the batch and keeps keys unique |
| Storage.UniqueKeysAppend | src/lib/stores/reservation.ts:296 | two key-unique tables with no common key stay key-unique together |
| Storage.InsertReservation | src/lib/stores/reservation.ts:148-163 | the insert succeeds exactly when the call works and the slot exists, and appends the row |
| Storage.UpdateSlotCapacity | src/lib/stores/reservation.ts:185-188 | only the capacity of the named slot changes; an unknown id updates nothing |
| Storage.ReservationsOfWeek | src/lib/stores/reservation.ts:39-42 | the result holds exactly the week's reservations, with multiplicity |
| Storage.SelectReservationsByWeek | src/lib/stores/reservation.ts:39-42 | succeeds exactly when the call works, and then returns exactly the week's reservations, with multiplicity |
| Storage.BookedAppend | src/lib/stores/reservation.ts:148-163 | appending a reservation books its own slot once more and no other |
| Storage.BookedUnreferenced | src/lib/stores/reservation.ts:148-163 | a slot no reservation names is booked zero times |
| ReservationStore.Initial | src/lib/stores/reservation.ts:66-73 | no slots, 3 reservations, thresholds 5 and 10, and the week of the current date |
| ReservationStore.SetAvailable | src/lib/stores/reservation.ts:82 | each slot with the matching id gets the new availability; every other slot is unchanged |
| ReservationStore.UpdateTimeSlot | src/lib/stores/reservation.ts:79-84 | only the matching slot's `available` changes; ids, times, other slots and other fields stay |
| ReservationStore.UpdateTimeSlotIdempotent | src/lib/stores/reservation.ts:79-84 | setting the same availability twice is the same as setting it once |
| ReservationStore.UpdateTimeSlotCommutes | src/lib/stores/reservation.ts:79-84 | updates of two different slots commute |
| ReservationStore.UpdateReservations | src/lib/stores/reservation.ts:86-92 | both counters become the count; nothing else changes |
| ReservationStore.UpdateReservationsLastWins | src/lib/stores/reservation.ts:86-92 | only the last count written is kept |
| ReservationStore.SyncReservations | src/lib/stores/reservation.ts:38-52 | a failed query leaves the store as it was; otherwise both counters become the number of the week's reservations |
| ReservationStore.UpdateWeekInfo | src/lib/stores/reservation.ts:94-99 | the store moves to the normalised week of the given start date; slots and thresholds stay; a failed recount keeps the counters, otherwise both become the number of that week's reservations |
| ReservationStore.UpdateWeekInfoKeepsCurrentWeek | src/lib/stores/reservation.ts:94-96 | re-entering the current week keeps it |
| ReservationStore.UpdateWeekInfoAnyDayOfWeek | src/lib/stores/reservation.ts:94-96 | passing any date of a week moves the store to that same week |
| ReservationStore.UpdateTimeSlots | src/lib/stores/reservation.ts:101-105 | the slot list is replaced; week and thresholds stay; a failed recount keeps the counters, otherwise both become the number of the week's reservations |
| ReservationStore.Reset | src/lib/stores/reservation.ts:244-253 | no slots, counters 0, thresholds 5 and 10, and the week of the current date |
| Workflow.LabelsAreHalfHours | src/lib/stores/reservation.ts:13-24 | ten labels, the i-th at 17:00 + 30·i minutes, so ascending |
| Workflow.LabelsDistinct | src/lib/stores/reservation.ts:13-24 | no label occurs twice |
| Workflow.ProvisionRows | src/lib/stores/reservation.ts:290-294 | one row per label, in label order, for the week, each with capacity 1; the keys are unique |
| Workflow.ShowSlots | src/lib/stores/reservation.ts:323-330 | the store shows the rows found, each with its id, time and availability (capacity positive), keeps its week and thresholds, and recounts the week's reservations |
| Workflow.Publish | src/lib/stores/reservation.ts:323-330 | each published slot keeps id and time, and is available exactly when its capacity is positive |
| Workflow.SyncTimeSlots | src/lib/stores/reservation.ts:267-335 | a nested call does nothing; reservations are untouched; slots are only appended; keys stay unique; the store either keeps its slots or shows rows of its week |
| Workflow.SyncKeepsOrShowsWeek | src/lib/stores/reservation.ts:267-335 | in every outcome, including a non-unique-key insert error after another client provisioned the week, the store is either unchanged or shows exactly the rows its week now has in the database, recounted |
| Workflow.Refetch | src/lib/stores/reservation.ts:308-320 | a failed or empty refetch keeps the store; otherwise the store shows the week's rows as found; the database is untouched |
| Workflow.ProvisionFits | src/lib/stores/reservation.ts:288-296 | provisioning an empty week keeps keys unique, and the week then holds exactly the new rows |
| Workflow.ProvisionTwiceConflicts | src/lib/stores/reservation.ts:298-302 | inserting a week's rows a second time is a unique-key conflict |
| Workflow.SyncFetchFailureKeepsState | src/lib/stores/reservation.ts:283-286 | a failed first query changes nothing |
| Workflow.SyncExistingWeekInsertsNothing | src/lib/stores/reservation.ts:288-330 | a week that has rows gets no insert, capacities stay, and the store shows those rows |
| Workflow.SyncProvisionsEmptyWeek | src/lib/stores/reservation.ts:288-320 | an empty week ends with exactly one row per label, whether this client inserted them or lost the race (conflict ignored), and the store shows them |
| Workflow.SyncInsertFailureKeepsState | src/lib/stores/reservation.ts:298-305 | an insert error other than the unique key aborts with the store unchanged, whether or not another client provisioned the week meanwhile; the database then holds only that client's rows |
| Workflow.SyncRefetchFailureKeepsState | src/lib/stores/reservation.ts:314-317 | when the refetch after provisioning fails, the store keeps its slots while the new rows stay in the database |
| Workflow.FreshWeekShowsLabels | src/lib/stores/reservation.ts:323-330 | a freshly provisioned week shows ten available slots in label order |
| Workflow.SyncTwiceProvisionsOnce | src/lib/stores/reservation.ts:288-320 | a second synchronisation after provisioning inserts nothing |
| Workflow.ConfirmedRow | src/lib/stores/reservation.ts:150-160 | the inserted row carries the customer's names, e-mail and phone, the slot id, the slot's time, the week key and status confirmed |
| Workflow.AddReservation | src/lib/stores/reservation.ts:107-211 | `database_error` exactly when the fetch fails, the slot is missing, or the insert fails; `slot_unavailable` exactly when capacity is at most 0; no change on failure; on success one confirmed row is added and the capacity drops by one (never below 0), unless the ignored decrement failed; the slot keeps its week and time; the resulting store and database are exactly those of a slot synchronisation run on the database after the insert and decrement (the refresh at line 196, with its recount) |
| Workflow.Recorded | src/lib/stores/reservation.ts:148-188 | the database after a booking: the confirmed row appended, and the slot's capacity lowered by one unless the update failed, every other slot unchanged |
| Workflow.BookingShowsSlotTaken | src/lib/stores/reservation.ts:185-196 | booking the last place of a slot in the store's week succeeds, and after the refresh the store shows that slot as unavailable |
| Workflow.SecondBookingUnavailable | src/lib/stores/reservation.ts:126-188 | after one successful booking of a capacity-1 slot whose decrement succeeded, the next booking of it is `slot_unavailable` and changes nothing |
| Workflow.LedgerAtMostOneBooking | src/lib/stores/reservation.ts:126-187 | under the ledger, a slot is held by at most one reservation, and a booked slot has capacity 0 |
| Workflow.SyncKeepsLedger | src/lib/stores/reservation.ts:288-296 | provisioning keeps the ledger: new rows have capacity 1 and no bookings |
| Workflow.AddReservationKeepsLedger | src/lib/stores/reservation.ts:126-196 | a booking whose decrement succeeds keeps the ledger |
| Workflow.FailedDecrementAllowsDoubleBooking | src/lib/stores/reservation.ts:185-200 | when the decrement fails, a second booking of a capacity-1 slot succeeds too, and the slot is held twice |
| Workflow.ReserveTimeSlot | src/lib/stores/reservation.ts:372-392 | on success only that slot's capacity becomes 0 and only it is marked unavailable; on failure nothing changes |
| Workflow.ReserveTimeSlotKeepsInvariants | src/lib/stores/reservation.ts:372-392 | closing a slot keeps the ledger and keeps the store showing its week |
| Pattern.OneAt | src/lib/stores/form.ts:65 | a single character class consumes exactly one matching character |
| Pattern.OptAt | src/lib/stores/form.ts:69 | `c?` either consumes one matching character or nothing |
| Pattern.StarAt | src/lib/stores/form.ts:65 | `c*` consumes some run of matching characters |
| Pattern.PlusAt | src/lib/stores/form.ts:65 | `c+` consumes a non-empty run of matching characters |
| Pattern.DigitsThen | src/lib/stores/form.ts:69 | `\d{n}` consumes exactly n digits |
| Formats.EmailDomainAt | src/lib/stores/form.ts:65 | `[^\s@]+\.[^\s@]+$` accepts a suffix exactly when it splits as `B.C` |
| Formats.EmailPatternIff | src/lib/stores/form.ts:65 | the e-mail expression accepts exactly the strings `A@B.C` with A, B, C non-empty and free of white space and `@` |
| Formats.LocalAt | src/lib/stores/form.ts:69 | the local part of the phone expression accepts exactly what the greedy scan accepts |
| Formats.IntlAt | src/lib/stores/form.ts:69 | the international form is `+`, one to three digits, an optional separator and a local number |
| Formats.PhonePatternIff | src/lib/stores/form.ts:69 | the phone expression accepts exactly the strings the left-to-right scan accepts |
| Form.MessagesDistinct | src/lib/stores/form.ts:59-74 | the texts `Message` gives the six kinds of error are pairwise different |
| Form.WithValue | src/lib/stores/form.ts:121 | the named field takes the value; the other four are unchanged |
| Form.Touch | src/lib/stores/form.ts:122 | the named field becomes touched; the other flags are unchanged |
| Form.ValidateField | src/lib/stores/form.ts:55-78 | no error exactly when the value is acceptable; names: empty gives required, length 1 gives too short, over 50 gives too long; e-mail and phone: empty gives required, otherwise invalid exactly when the shape fails; slot: error only when empty |
| Form.Collect | src/lib/stores/form.ts:84-93 | the errors recorded are exactly those of the touched fields visited that fail, each the field's own error |
| Form.ValidateForm | src/lib/stores/form.ts:80-96 | an error appears exactly for the touched fields that fail; untouched fields never appear |
| Form.HasErrors | src/lib/stores/form.ts:100-109 | false exactly when all five fields are acceptable |
| Form.ValidateAllFields | src/lib/stores/form.ts:98-112 | the keys are exactly the failing fields, and `isValid` holds exactly when there is no error |
| Form.Initial | src/lib/stores/form.ts:33-53 | all fields empty and untouched, no errors, not valid, not submitting |
| Form.InitialConsistent | src/lib/stores/form.ts:41-53 | the initial state satisfies the store's invariant |
| Form.UpdateField | src/lib/stores/form.ts:119-136 | sets and touches only that field, keeps the submitting flag, shows the errors of the touched fields, and computes `isValid` from all fields |
| Form.SetSubmitting | src/lib/stores/form.ts:137-139 | only the submitting flag changes; the invariant is kept |
| Form.ValidateAll | src/lib/stores/form.ts:140-158 | all fields become touched, every failing field shows its error, and `isValid` holds exactly when no error is shown |
| Form.Reset | src/lib/stores/form.ts:159 | returns to the initial state, which satisfies the invariant |
| Form.UpdateFieldIdempotent | src/lib/stores/form.ts:119-136 | typing the same value into a field twice is the same as typing it once |
| Form.ValidWhenNoErrorShown | src/lib/stores/form.ts:140-158 | once every field is touched, the form is valid exactly when no error is shown |
| Form.FirstKeystrokeSilentButInvalid | src/lib/stores/form.ts:123-126 | a valid first name in a fresh form shows no error, yet the form is not valid |

## Left out

- Supabase calls, `fetch` and Svelte's `writable`/`subscribe`/`get` are not modelled as such. The database is a value. Whether each call fails is an input flag.
- Subscriptions and notifications are not modelled.
- Exceptions thrown by the client library, and the `catch` of `addReservation`, are left out. Errors are modelled as the `error` results the calls return.
- The `syncInProgress` guard is modelled only as the input flag `busy`, which makes a nested call do nothing. Interleavings of concurrent calls are not modelled.
- The concurrency window of `addReservation` is not modelled: two clients can both read capacity 1 before either decrements. Only one client's sequential steps are modelled. The other client shows up only as the `raced` provisioning in `SyncTimeSlots`.
- Time zones, local time versus UTC, and `toISOString().split('T')[0]` are left out. A week key is the day number of the week's start date.
- Slot ids are positions in the `time_slots` table, not the database's string ids. Rows are never deleted, so a position is a stable id.
- `Storage.SlotsOfWeek`: the queries have no `ORDER BY`. The model returns rows in table order. A real database may return them in another order.
- `Workflow.AddReservation`: the error messages, which include the database's own message text, are not modelled. Only the error kind is. `email_exists` and `phone_exists` exist as kinds but are never produced, as in the code.
- Logging (`console.log`, `console.error`) in both stores is left out.
- `Form.ValidateField`: JavaScript's `length` counts UTF-16 code units. The model counts characters, so names containing characters outside the Basic Multilingual Plane are measured differently.
- Form errors are stored as `FieldError` values. `Form.Message` gives the text each one displays.
- `initializeWeek` and the bootstrap that runs when the module loads are left out: they only chain `updateWeekInfo`, `syncTimeSlots` and `syncReservations`, which are modelled.
- `ReservationStore.UpdateWeekInfo` and `ReservationStore.UpdateTimeSlots`: the code starts `syncReservations` without awaiting it, so the recount lands some time later. The model applies the recount at once.
- `fetchTotalReservations`, `updateTimeSlotAvailability` and `processPayment` are left out: they are I/O wrappers with no logic of their own.
- Authentication, the whitelist endpoints, the Stripe calls and the locale date formatting are outside the two stores and are not part of this model.
- `src/lib/types.ts` only declares types. Its `TimeSlot`, `WeekInfo`, `Reservation` and `ReservationError` are mirrored as datatypes.

## Notes on the code

- The capacity decrement is a read followed by a write, not an atomic step. Its failure is ignored, and `Workflow.FailedDecrementAllowsDoubleBooking` shows the double booking this allows.
