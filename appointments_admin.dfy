/** The admin actions of the appointment tables: bulk status updates over a
    selection of rows, and the occupancy colour of an availability row. The
    bulk actions are `queryset.update(...)` calls, which write the columns
    directly and do not run `save()`. */
module AppointmentAdmin {
  import opened Common
  import opened AppointmentModels
  import opened AppointmentViews

  // ---------------------------------------------------------------------
  // Bulk updates

  /** `queryset.update(...)` with the row-wise change `f` on the selected rows;
      the other rows of the table keep their values. */
  function UpdateSelected<V>(rows: map<nat, V>, selection: set<nat>, f: V -> V): map<nat, V> {
    map pk | pk in rows :: if pk in selection then f(rows[pk]) else rows[pk]
  }

  /** The selected rows that the update actually changes. */
  function Changed<V(==)>(rows: map<nat, V>, selection: set<nat>, f: V -> V): set<nat> {
    set pk | pk in selection && pk in rows && f(rows[pk]) != rows[pk]
  }

  /** `mark_confirmed`, on one row: only a scheduled appointment, to confirmed. */
  function ConfirmRow(a: Appointment): Appointment {
    if a.status == Scheduled then a.(status := Confirmed) else a
  }

  /** `mark_completed`, on one row: only confirmed or in-progress, to completed. */
  function CompleteRow(a: Appointment): Appointment {
    if a.status == Confirmed || a.status == InProgress then a.(status := Completed) else a
  }

  /** `mark_cancelled`, on one row: only scheduled or confirmed, to cancelled,
      stamped with the time and the acting user. */
  function CancelRow(now: int, user: nat): Appointment -> Appointment {
    (a: Appointment) =>
      if a.status == Scheduled || a.status == Confirmed
      then a.(status := Cancelled, cancelledAt := Some(now), cancelledBy := Some(user))
      else a
  }

  /** `mark_notified`, on one entry: only an active entry, to notified, stamped. */
  function NotifyRow(now: int): WaitingEntry -> WaitingEntry {
    (w: WaitingEntry) => if w.status == ActiveEntry then w.(status := NotifiedEntry, notifiedAt := Some(now)) else w
  }

  /** `mark_appointed`, on one entry: whatever its status, to appointed. */
  function AppointRow(w: WaitingEntry): WaitingEntry {
    w.(status := AppointedEntry)
  }

  /** Each appointment action changes a row only by one step of the status
      machine, touches nothing but the status (and, for cancelling, the two
      stamps), and a second run changes nothing, so it does not restamp. */
  lemma AppointmentActionsAreSteps(a: Appointment, now: int, later: int, user: nat, other: nat)
    ensures ConfirmRow(a) != a <==> a.status == Scheduled
    ensures ConfirmRow(a) != a ==> StatusStep(a.status, ConfirmRow(a).status)
    ensures ConfirmRow(a).(status := a.status) == a
    ensures ConfirmRow(ConfirmRow(a)) == ConfirmRow(a)
    ensures CompleteRow(a) != a <==> a.status in {Confirmed, InProgress}
    ensures CompleteRow(a) != a ==> StatusStep(a.status, CompleteRow(a).status)
    ensures CompleteRow(a).(status := a.status) == a
    ensures CompleteRow(CompleteRow(a)) == CompleteRow(a)
    ensures CancelRow(now, user)(a).status != a.status <==> a.status in {Scheduled, Confirmed}
    ensures CancelRow(now, user)(a).status != a.status ==> StatusStep(a.status, CancelRow(now, user)(a).status)
    ensures CancelRow(now, user)(a).(status := a.status, cancelledAt := a.cancelledAt, cancelledBy := a.cancelledBy) == a
    ensures CancelRow(later, other)(CancelRow(now, user)(a)) == CancelRow(now, user)(a)
  {
  }

  /** Notifying moves only active entries; appointing reaches every entry,
      including cancelled and expired ones. */
  lemma WaitingActions(w: WaitingEntry, now: int)
    ensures NotifyRow(now)(w) != w <==> w.status == ActiveEntry
    ensures NotifyRow(now)(w).status in {w.status, NotifiedEntry}
    ensures AppointRow(w).status == AppointedEntry
    ensures AppointRow(w).(status := w.status) == w
  {
  }

  /** The selected rows receive the change and no other row does; the table
      keeps its keys. */
  lemma UpdateSelectedFrame<V>(rows: map<nat, V>, selection: set<nat>, f: V -> V, pk: nat)
    requires pk in rows
    ensures UpdateSelected(rows, selection, f).Keys == rows.Keys
    ensures pk in selection ==> UpdateSelected(rows, selection, f)[pk] == f(rows[pk])
    ensures pk !in selection ==> UpdateSelected(rows, selection, f)[pk] == rows[pk]
  {
  }

  /** The message reports the size of the whole selection: at least the
      number of rows changed, and more as soon as one selected row is left
      as it was. */
  lemma CountIsSelection<V>(rows: map<nat, V>, selection: set<nat>, f: V -> V, kept: nat)
    requires selection <= rows.Keys
    ensures |Changed(rows, selection, f)| <= |selection|
    ensures kept in selection && f(rows[kept]) == rows[kept] ==> |Changed(rows, selection, f)| < |selection|
  {
    var c := Changed(rows, selection, f);
    SubsetSize(c, selection);
    if kept in selection && f(rows[kept]) == rows[kept] {
      SubsetSize(c, selection - {kept});
    }
  }

  /** `AppointmentAdmin.mark_confirmed`. */
  method MarkConfirmed(store: AppointmentStore, selection: set<nat>) returns (count: nat)
    requires selection <= store.appointments.Keys
    modifies store`appointments
    ensures store.appointments == UpdateSelected(old(store.appointments), selection, ConfirmRow)
    ensures count == |selection|
  {
    store.appointments := UpdateSelected(store.appointments, selection, ConfirmRow);
    count := |selection|;
  }

  /** `AppointmentAdmin.mark_completed`. */
  method MarkCompleted(store: AppointmentStore, selection: set<nat>) returns (count: nat)
    requires selection <= store.appointments.Keys
    modifies store`appointments
    ensures store.appointments == UpdateSelected(old(store.appointments), selection, CompleteRow)
    ensures count == |selection|
  {
    store.appointments := UpdateSelected(store.appointments, selection, CompleteRow);
    count := |selection|;
  }

  /** `AppointmentAdmin.mark_cancelled`: the time and the acting user are
      inputs. */
  method MarkCancelled(store: AppointmentStore, selection: set<nat>, now: int, user: nat) returns (count: nat)
    requires selection <= store.appointments.Keys
    modifies store`appointments
    ensures store.appointments == UpdateSelected(old(store.appointments), selection, CancelRow(now, user))
    ensures count == |selection|
  {
    store.appointments := UpdateSelected(store.appointments, selection, CancelRow(now, user));
    count := |selection|;
  }

  /** `WaitingListAdmin.mark_notified`. */
  method MarkNotified(store: AppointmentStore, selection: set<nat>, now: int) returns (count: nat)
    requires selection <= store.waitingList.Keys
    modifies store`waitingList
    ensures store.waitingList == UpdateSelected(old(store.waitingList), selection, NotifyRow(now))
    ensures count == |selection|
  {
    store.waitingList := UpdateSelected(store.waitingList, selection, NotifyRow(now));
    count := |selection|;
  }

  /** `WaitingListAdmin.mark_appointed`. */
  method MarkAppointed(store: AppointmentStore, selection: set<nat>) returns (count: nat)
    requires selection <= store.waitingList.Keys
    modifies store`waitingList
    ensures store.waitingList == UpdateSelected(old(store.waitingList), selection, AppointRow)
    ensures count == |selection|
  {
    store.waitingList := UpdateSelected(store.waitingList, selection, AppointRow);
    count := |selection|;
  }

  // ---------------------------------------------------------------------
  // occupancy_display

  datatype Colour = Red | Yellow | Green

  /** How alarming a colour is. */
  function Severity(c: Colour): nat {
    match c
    case Green => 0
    case Yellow => 1
    case Red => 2
  }

  /** The colour of `occupancy_percentage` (`booked / total * 100`, or 0 for an
      empty row) against 90 and 70, compared without division. */
  function OccupancyColour(v: Availability): Colour {
    if v.totalSlots == 0 then Green
    else if v.bookedSlots * 100 >= 90 * v.totalSlots then Red
    else if v.bookedSlots * 100 >= 70 * v.totalSlots then Yellow
    else Green
  }

  /** The whole percentage `booked * 100 / total`, rounded down. */
  function WholePercent(v: Availability): nat
    requires v.totalSlots > 0
  {
    v.bookedSlots * 100 / v.totalSlots
  }

  /** Multiplying both sides by a non-negative factor keeps `<=`. */
  lemma MulMonotone(x: int, y: int, t: nat)
    requires x <= y
    ensures x * t <= y * t
  {
    assert y * t - x * t == (y - x) * t;
  }

  /** A threshold met by the exact quotient `m / t` is met by its whole part. */
  lemma WholeQuotientThreshold(m: nat, t: nat, p: nat)
    requires t > 0
    ensures m >= p * t <==> m / t >= p
  {
    var q := m / t;
    assert m == q * t + m % t && 0 <= m % t < t;
    if q >= p {
      MulMonotone(p, q, t);
    } else {
      MulMonotone(q + 1, p, t);
      assert (q + 1) * t == q * t + t;
    }
  }

  /** The colour read off the whole percentage: red from 90, yellow from 70,
      green below. */
  lemma OccupancyByPercent(v: Availability)
    requires v.totalSlots > 0
    ensures OccupancyColour(v) == Red <==> WholePercent(v) >= 90
    ensures OccupancyColour(v) == Yellow <==> 70 <= WholePercent(v) < 90
    ensures OccupancyColour(v) == Green <==> WholePercent(v) < 70
  {
    WholeQuotientThreshold(v.bookedSlots * 100, v.totalSlots, 90);
    WholeQuotientThreshold(v.bookedSlots * 100, v.totalSlots, 70);
  }

  /** More bookings on the same total never make the colour less alarming,
      and a fully booked row is red. */
  lemma {:induction false} OccupancyMonotone(v: Availability, more: nat)
    ensures Severity(OccupancyColour(v)) <= Severity(OccupancyColour(v.(bookedSlots := v.bookedSlots + more)))
    ensures v.totalSlots > 0 && v.bookedSlots >= v.totalSlots ==> OccupancyColour(v) == Red
  {
    var b := v.bookedSlots;
    assert (b + more) * 100 == b * 100 + more * 100;
  }
}
