/** Appointments, their types, the doctors' weekly time slots, the
    availability counters and the waiting list. Dates are day numbers (see
    `Calendar`), times of day are minutes since midnight, and instants are
    seconds on the same scale (`TIME_ZONE` is UTC, so `make_aware` shifts
    nothing). Fees are integer hundredths of the currency unit. */
module AppointmentModels {
  import opened Common
  import opened Calendar
  import opened SerialIds

  const SecondsPerDay: int := 86400

  datatype Status = Scheduled | Confirmed | InProgress | Completed | Cancelled | NoShow | Rescheduled

  /** The statuses that hold the doctor's time: `['scheduled', 'confirmed', 'in_progress']`. */
  predicate Occupies(s: Status) {
    s == Scheduled || s == Confirmed || s == InProgress
  }

  datatype AppointmentType = AppointmentType(durationMinutes: nat, cost: nat, isActive: bool)

  /** A weekly window of a doctor's time, cut into `slotDuration`-minute slots. */
  datatype TimeSlot = TimeSlot(doctor: nat, dayOfWeek: int, startTime: TimeOfDay, endTime: TimeOfDay,
                               slotDuration: nat, isAvailable: bool)

  datatype Appointment = Appointment(
    appointmentId: string,
    patient: nat,
    doctor: nat,
    appointmentType: nat,
    date: int,
    time: TimeOfDay,
    durationMinutes: nat,
    endTime: TimeOfDay,
    status: Status,
    consultationFee: nat,
    checkedInAt: Option<int>,
    actualEndTime: Option<TimeOfDay>,
    waitingTimeMinutes: Option<nat>,
    cancelledAt: Option<int>,
    cancelledBy: Option<nat>,
    cancellationReason: Option<string>,
    originalAppointment: Option<nat>,
    createdBy: Option<nat>)

  // ---------------------------------------------------------------------
  // TimeSlot.clean

  datatype Check = Passes | Fails(message: string)

  /** `TimeSlot.clean` */
  function CleanTimeSlot(s: TimeSlot): (r: Check)
    ensures r.Passes? <==> s.startTime < s.endTime
    ensures r.Fails? ==> r.message == "End time must be after start time"
  {
    if s.startTime >= s.endTime then Fails("End time must be after start time") else Passes
  }

  // ---------------------------------------------------------------------
  // Appointment.save

  /** `(datetime.combine(d, t) + timedelta(minutes=n)).time()`: the clock time
      `n` minutes after `t`, wrapping at midnight. */
  function EndTime(t: TimeOfDay, n: nat): (e: TimeOfDay)
    ensures t + n < MinutesPerDay ==> e == t + n
    ensures (t + n - e) % MinutesPerDay == 0
  {
    (t + n) % MinutesPerDay
  }

  /** The id prefix of a month: `f"APT{year}{month:02d}"`. */
  function AppointmentPrefix(year: nat, month: nat): string {
    "APT" + Decimal(year) + ZeroPad(month, 2)
  }

  /** `generate_appointment_id`, with the serial rule corrected (see `SerialIds`). */
  function GenerateAppointmentId(ids: seq<string>, year: nat, month: nat): (id: string)
    ensures StartsWith(id, AppointmentPrefix(year, month))
    ensures id !in ids
  {
    GenerateId(ids, AppointmentPrefix(year, month))
  }

  /** `generate_appointment_id` as the source writes it. */
  function GenerateAppointmentIdAsWritten(ids: seq<string>, year: nat, month: nat): Option<string> {
    GenerateIdAsWritten(ids, AppointmentPrefix(year, month))
  }

  /** The first appointment of a month gets serial 0001; after "…9999" the
      source hands out "…10000" again and again. */
  lemma AppointmentIdAsWrittenRepeats()
    ensures AppointmentPrefix(2024, 1) == "APT202401"
    ensures var ids := ["APT2024019999", "APT20240110000"];
            GenerateAppointmentIdAsWritten(ids, 2024, 1) == Some("APT20240110000")
            && "APT20240110000" in ids
  {
    assert Decimal(2024) == "2024" by {
      assert Decimal(2) == "2";
      assert Decimal(20) == Decimal(2) + ['0'];
      assert Decimal(202) == Decimal(20) + ['2'];
    }
    assert ZeroPad(1, 2) == "01" by {
      assert Decimal(1) == "1";
      assert Zeros(1) == "0";
    }
    var p := AppointmentPrefix(2024, 1);
    assert p == "APT202401";
    var ids := ["APT2024019999", "APT20240110000"];
    assert "APT2024019999" == "APT202401" + "9999";
    assert "APT20240110000" == "APT202401" + "10000";
    assert ids == [p + "9999", p + "10000"];
    AsWrittenRepeatsAfter9999(p);
    assert GenerateIdAsWritten(ids, p) == Some(p + "10000");
  }

  /** The part of `Appointment.save` that every save runs: the end time
      follows the start and a non-zero duration, and a zero fee is replaced by
      the type's cost. */
  function SaveFields(a: Appointment, typ: AppointmentType): (r: Appointment)
    ensures a.durationMinutes > 0 ==> r.endTime == EndTime(a.time, a.durationMinutes)
    ensures a.durationMinutes == 0 ==> r.endTime == a.endTime
    ensures r.consultationFee == if a.consultationFee == 0 then typ.cost else a.consultationFee
    ensures r == a.(endTime := r.endTime, consultationFee := r.consultationFee)
  {
    var end := if a.durationMinutes > 0 then EndTime(a.time, a.durationMinutes) else a.endTime;
    var fee := if a.consultationFee == 0 then typ.cost else a.consultationFee;
    a.(endTime := end, consultationFee := fee)
  }

  /** `Appointment.save`: an id is generated only for a row without one, then
      `SaveFields`. `ids` are the ids in the table, and `year`/`month` the
      clock's. */
  function Save(a: Appointment, typ: AppointmentType, ids: seq<string>, year: nat, month: nat): (r: Appointment)
    ensures a.appointmentId != "" ==> r == SaveFields(a, typ)
    ensures a.appointmentId == "" ==>
      StartsWith(r.appointmentId, AppointmentPrefix(year, month)) && r.appointmentId !in ids
    ensures a.durationMinutes > 0 ==> r.endTime == EndTime(a.time, a.durationMinutes)
    ensures a.durationMinutes == 0 ==> r.endTime == a.endTime
    ensures r.consultationFee == if a.consultationFee == 0 then typ.cost else a.consultationFee
    ensures r == a.(appointmentId := r.appointmentId, endTime := r.endTime, consultationFee := r.consultationFee)
  {
    var id := if a.appointmentId == "" then GenerateAppointmentId(ids, year, month) else a.appointmentId;
    SaveFields(a.(appointmentId := id), typ)
  }

  /** Saving twice is saving once. */
  lemma SaveIdempotent(a: Appointment, typ: AppointmentType, ids: seq<string>, year: nat, month: nat)
    ensures Save(Save(a, typ, ids, year, month), typ, ids, year, month) == Save(a, typ, ids, year, month)
  {
    var r := Save(a, typ, ids, year, month);
    assert r.appointmentId != "" by {
      if a.appointmentId == "" {
        assert |AppointmentPrefix(year, month)| > 0;
      }
    }
  }

  // ---------------------------------------------------------------------
  // can_cancel, can_reschedule

  /** `datetime.combine(date, time)` as an instant, in seconds. */
  function Instant(date: int, time: TimeOfDay): int {
    date * SecondsPerDay + time * 60
  }

  /** `now.date()` and `now.time()` of an instant (floor division, as for
      instants before the epoch day too). */
  function DayOf(now: int): int {
    now / SecondsPerDay
  }

  function ClockTime(now: int): (t: TimeOfDay) {
    (now % SecondsPerDay) / 60
  }

  /** `datetime.combine` and `.date()`/`.time()` undo each other. */
  lemma InstantParts(date: int, time: TimeOfDay)
    ensures DayOf(Instant(date, time)) == date
    ensures ClockTime(Instant(date, time)) == time
  {
    var i := Instant(date, time);
    assert i == date * SecondsPerDay + time * 60;
    assert 0 <= time * 60 < SecondsPerDay;
  }

  /** `Appointment.can_cancel` at the instant `now`. */
  predicate CanCancel(a: Appointment, now: int) {
    if a.status in {Completed, Cancelled, NoShow} then false
    else Instant(a.date, a.time) - now > SecondsPerDay
  }

  /** `Appointment.can_reschedule` */
  predicate CanReschedule(a: Appointment, now: int) {
    CanCancel(a, now) && a.status in {Scheduled, Confirmed}
  }

  /** The 24-hour window: an open appointment can be cancelled exactly until
      one day before it starts, and never at that instant or later. */
  lemma CancelWindow(a: Appointment, now: int)
    requires a.status !in {Completed, Cancelled, NoShow}
    ensures CanCancel(a, now) <==> now < Instant(a.date, a.time) - SecondsPerDay
    ensures now >= Instant(a.date, a.time) - SecondsPerDay ==> !CanCancel(a, now)
  {
  }

  /** What can be cancelled now could be cancelled at any earlier instant. */
  lemma CanCancelEarlier(a: Appointment, now: int, earlier: int)
    requires earlier <= now && CanCancel(a, now)
    ensures CanCancel(a, earlier)
  {
  }

  /** Rescheduling needs everything cancelling needs, and a status that is
      still scheduled or confirmed. */
  lemma RescheduleNeedsCancel(a: Appointment, now: int)
    ensures CanReschedule(a, now) ==> CanCancel(a, now)
    ensures CanReschedule(a, now) <==> CanCancel(a, now) && (a.status == Scheduled || a.status == Confirmed)
    ensures a.status in {InProgress, Rescheduled} ==> !CanReschedule(a, now)
  {
  }

  // ---------------------------------------------------------------------
  // AppointmentAvailability

  datatype Availability = Availability(doctor: nat, date: int, startTime: TimeOfDay, endTime: TimeOfDay,
                                       slotDuration: nat, totalSlots: nat, bookedSlots: nat, blockedSlots: nat,
                                       isAvailable: bool)

  /** `available_slots`: may be negative when bookings exceed the total. */
  function RemainingSlots(v: Availability): int {
    v.totalSlots - v.bookedSlots - v.blockedSlots
  }

  /** `is_fully_booked` */
  predicate IsFullyBooked(v: Availability) {
    RemainingSlots(v) <= 0
  }

  /** Fully booked exactly when booked and blocked slots cover the total, and
      one more booking keeps it so. */
  lemma FullyBookedIff(v: Availability)
    ensures IsFullyBooked(v) <==> v.bookedSlots + v.blockedSlots >= v.totalSlots
    ensures IsFullyBooked(v) ==> IsFullyBooked(v.(bookedSlots := v.bookedSlots + 1))
    ensures v.totalSlots == 0 ==> IsFullyBooked(v)
  {
  }

  /** The slot positions `0 .. total - 1` of a day. */
  function Positions(total: nat): (ps: set<nat>)
    ensures forall s: nat :: s in ps <==> s < total
    ensures |ps| == total
  {
    if total == 0 then {} else Positions(total - 1) + {total - 1}
  }

  /** When the counters count disjoint sets of booked and blocked positions,
      `available_slots` is the number of positions that are neither, and the
      day is fully booked exactly when no position is free. */
  lemma RemainingSlotsCountsFree(v: Availability, booked: set<nat>, blocked: set<nat>)
    requires booked !! blocked && booked + blocked <= Positions(v.totalSlots)
    requires |booked| == v.bookedSlots && |blocked| == v.blockedSlots
    ensures RemainingSlots(v) == |Positions(v.totalSlots) - booked - blocked|
    ensures IsFullyBooked(v) <==> Positions(v.totalSlots) - booked - blocked == {}
  {
    var all := Positions(v.totalSlots);
    assert |booked + blocked| == |booked| + |blocked|;
    assert all - booked - blocked == all - (booked + blocked);
    assert |all - (booked + blocked)| == |all| - |booked + blocked| by {
      assert all == (all - (booked + blocked)) + (booked + blocked);
    }
  }

  // ---------------------------------------------------------------------
  // WaitingList and AppointmentFeedback

  datatype WaitingStatus = ActiveEntry | NotifiedEntry | AppointedEntry | CancelledEntry | ExpiredEntry

  datatype WaitingEntry = WaitingEntry(patient: nat, doctor: nat, appointmentType: nat, status: WaitingStatus,
                                       notifiedAt: Option<int>)

  /** The five ratings of a feedback row, each validated to 1..5. */
  datatype Feedback = Feedback(overall: int, doctor: int, staff: int, facility: int, waitTime: int)

  predicate Rating(n: int) {
    1 <= n <= 5
  }

  predicate ValidFeedback(f: Feedback) {
    Rating(f.overall) && Rating(f.doctor) && Rating(f.staff) && Rating(f.facility) && Rating(f.waitTime)
  }

  /** Slot rows in the table's `Meta.ordering`: by `day_of_week`, then by
      `start_time`. */
  predicate SlotsOrdered(ts: seq<TimeSlot>) {
    forall i, j :: 0 <= i < j < |ts| ==>
      ts[i].dayOfWeek < ts[j].dayOfWeek || (ts[i].dayOfWeek == ts[j].dayOfWeek && ts[i].startTime <= ts[j].startTime)
  }

  // ---------------------------------------------------------------------
  // The tables

  /** The appointment tables. `nextPk` is the next auto-increment key of the
      appointments table; `timeSlots` holds the slot rows in the table's
      order (`day_of_week`, `start_time`). */
  class AppointmentStore {
    var appointments: map<nat, Appointment>
    var types: map<nat, AppointmentType>
    var timeSlots: seq<TimeSlot>
    var doctors: set<nat>
    var feedback: map<nat, Feedback>
    var waitingList: map<nat, WaitingEntry>
    var nextPk: nat

    /** Every row has a key below the counter, a known type and an id, no two
        rows share an id (`appointment_id` is unique), feedback belongs to a
        stored appointment, and the slot rows are in the table's order. */
    ghost predicate Valid()
      reads this
    {
      (forall pk :: pk in appointments ==>
         pk < nextPk && appointments[pk].appointmentType in types && appointments[pk].appointmentId != "")
      && (forall p, q :: p in appointments && q in appointments && p != q ==>
            appointments[p].appointmentId != appointments[q].appointmentId)
      && (forall pk :: pk in feedback ==> pk in appointments && ValidFeedback(feedback[pk]))
      && SlotsOrdered(timeSlots)
    }

    constructor()
      ensures Valid()
      ensures appointments == map[] && types == map[] && timeSlots == [] && doctors == {}
      ensures feedback == map[] && waitingList == map[] && nextPk == 1
    {
      appointments := map[];
      types := map[];
      timeSlots := [];
      doctors := {};
      feedback := map[];
      waitingList := map[];
      nextPk := 1;
    }

    /** The appointment ids in use, each once, in some order: what the
        `appointment_id__startswith` query ranges over. */
    method IdList() returns (ids: seq<string>)
      ensures forall pk :: pk in appointments ==> appointments[pk].appointmentId in ids
    {
      ids := ToList(set pk | pk in appointments :: appointments[pk].appointmentId);
    }

    /** `save()` of an existing row. */
    method Put(pk: nat, row: Appointment)
      requires Valid() && pk in appointments
      requires row.appointmentType in types && row.appointmentId == appointments[pk].appointmentId
      modifies this`appointments
      ensures Valid() && appointments == old(appointments)[pk := row]
    {
      appointments := appointments[pk := row];
    }

    /** `save()` of a new row: it gets the next key. */
    method Insert(row: Appointment) returns (key: nat)
      requires Valid()
      requires row.appointmentType in types && row.appointmentId != ""
      requires forall pk :: pk in appointments ==> appointments[pk].appointmentId != row.appointmentId
      modifies this`appointments, this`nextPk
      ensures Valid() && key == old(nextPk) && key !in old(appointments) && nextPk == key + 1
      ensures appointments == old(appointments)[key := row]
    {
      key := nextPk;
      appointments := appointments[key := row];
      nextPk := key + 1;
    }
  }
}
