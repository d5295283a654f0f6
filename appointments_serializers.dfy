/** `AppointmentCreateUpdateSerializer`: the checks a create or update
    request passes (a date not in the past for new appointments, a time inside
    one of the doctor's available windows, no overlap with the doctor's other
    active appointments) and the row `create` writes; and the day names of
    `TimeSlotSerializer`. */
module AppointmentSerializers {
  import opened Common
  import opened Calendar
  import opened SerialIds
  import opened AppointmentModels

  /** The request fields the checks read and `create` stores; a field the
      request leaves out is None. `status` and `fee` are writable columns
      too: the serializer excludes only `appointment_id`, `end_time` and
      `created_by`. */
  datatype Attrs = Attrs(patient: nat, doctor: Option<nat>, appointmentType: Option<nat>,
                         date: Option<int>, time: Option<TimeOfDay>, duration: Option<nat>,
                         originalAppointment: Option<nat>, status: Option<Status>, fee: Option<nat>)

  datatype Validation = Accepted | Rejected(message: string)

  // ---------------------------------------------------------------------
  // get_day_name

  const DayNames: seq<string> := ["Monday", "Tuesday", "Wednesday", "Thursday", "Friday", "Saturday", "Sunday"]

  /** `days[obj.day_of_week]`, with Python's list indexing: a negative index
      counts from the end, and an index outside -7..6 raises `IndexError`
      (None here). */
  function DayName(d: int): (r: Option<string>)
    ensures r.Some? <==> -7 <= d < 7
    ensures 0 <= d < 7 ==> r == Some(DayNames[d])
    ensures -7 <= d < 0 ==> r == Some(DayNames[d + 7])
  {
    if 0 <= d < 7 then Some(DayNames[d])
    else if -7 <= d < 0 then Some(DayNames[d + 7])
    else None
  }

  /** Each weekday `date.weekday()` can return has its own name, and the
      ordinal day 1 (a Monday) is named so. */
  lemma DayNamesOfWeekdays(day: int, other: int)
    ensures DayName(Weekday(day)).Some?
    ensures Weekday(day) != Weekday(other) ==> DayName(Weekday(day)) != DayName(Weekday(other))
    ensures DayName(Weekday(1)) == Some("Monday")
  {
  }

  // ---------------------------------------------------------------------
  // validate

  /** Some available window of the doctor on that weekday contains the time,
      both ends included. */
  predicate DoctorAvailable(slots: seq<TimeSlot>, doctor: nat, date: int, time: TimeOfDay) {
    exists i :: 0 <= i < |slots| && slots[i].doctor == doctor && slots[i].dayOfWeek == Weekday(date)
      && slots[i].startTime <= time <= slots[i].endTime && slots[i].isAvailable
  }

  /** The conflict query: another active appointment of the doctor that day
      with `appointment_time < end` and `end_time > start`, the edited row
      excluded. */
  predicate Conflict(rows: map<nat, Appointment>, doctor: nat, date: int, start: TimeOfDay, end: TimeOfDay, exclude: Option<nat>) {
    exists pk :: pk in rows && rows[pk].doctor == doctor && rows[pk].date == date && Occupies(rows[pk].status)
      && rows[pk].time < end && rows[pk].endTime > start && (exclude.None? || pk != exclude.value)
  }

  /** The checks of `validate`, with `duration` the minutes the conflict test
      assumes. `instance` is the row being updated, None on create. */
  function ValidateWith(attrs: Attrs, instance: Option<nat>, today: int, slots: seq<TimeSlot>,
                        rows: map<nat, Appointment>, duration: nat): (v: Validation)
    ensures v.Accepted? && attrs.doctor.Some? && attrs.date.Some? && attrs.time.Some? ==>
      DoctorAvailable(slots, attrs.doctor.value, attrs.date.value, attrs.time.value)
      && !Conflict(rows, attrs.doctor.value, attrs.date.value, attrs.time.value,
                   EndTime(attrs.time.value, duration), instance)
  {
    if instance.None? && attrs.date.Some? && attrs.date.value < today then
      Rejected("Cannot schedule appointment in the past")
    else if attrs.doctor.Some? && attrs.date.Some? && attrs.time.Some? then
      var doctor, date, time := attrs.doctor.value, attrs.date.value, attrs.time.value;
      if !DoctorAvailable(slots, doctor, date, time) then
        Rejected("Doctor is not available at this time")
      else if Conflict(rows, doctor, date, time, EndTime(time, duration), instance) then
        Rejected("Doctor has a conflicting appointment at this time")
      else Accepted
    else Accepted
  }

  /** `attrs.get('duration_minutes', 30)`: what `validate` assumes. */
  function AssumedDuration(attrs: Attrs): nat {
    if attrs.duration.Some? then attrs.duration.value else 30
  }

  /** The duration `create` stores: the type's when the request gives none or
      zero, else the request's; the model default 30 when there is neither. */
  function CreateDuration(attrs: Attrs, types: map<nat, AppointmentType>): (d: nat)
    ensures attrs.duration.Some? && attrs.duration.value > 0 ==> d == attrs.duration.value
  {
    if (attrs.duration.None? || attrs.duration.value == 0) && attrs.appointmentType.Some? && attrs.appointmentType.value in types
    then types[attrs.appointmentType.value].durationMinutes
    else AssumedDuration(attrs)
  }

  /** `validate` as the source writes it. */
  function ValidateAsWritten(attrs: Attrs, instance: Option<nat>, today: int, slots: seq<TimeSlot>,
                             rows: map<nat, Appointment>): Validation {
    ValidateWith(attrs, instance, today, slots, rows, AssumedDuration(attrs))
  }

  /** `validate` with the conflict test over the interval `create` stores. */
  function Validate(attrs: Attrs, instance: Option<nat>, today: int, slots: seq<TimeSlot>,
                    rows: map<nat, Appointment>, types: map<nat, AppointmentType>): Validation {
    ValidateWith(attrs, instance, today, slots, rows, CreateDuration(attrs, types))
  }

  /** New appointments in the past are refused; updates are not checked
      against the date at all. */
  lemma PastDates(attrs: Attrs, pk: nat, today: int, today': int, slots: seq<TimeSlot>,
                  rows: map<nat, Appointment>, types: map<nat, AppointmentType>)
    ensures attrs.date.Some? && attrs.date.value < today ==>
      Validate(attrs, None, today, slots, rows, types) == Rejected("Cannot schedule appointment in the past")
    ensures Validate(attrs, Some(pk), today, slots, rows, types) == Validate(attrs, Some(pk), today', slots, rows, types)
  {
  }

  /** Minute `m` lies both in the appointment and in `[start, end)`. */
  predicate SharesMinute(a: Appointment, start: int, end: int, m: int) {
    a.time <= m < a.endTime && start <= m < end
  }

  /** When neither interval wraps past midnight, the conflict query finds
      exactly the active appointments sharing a minute with `[start, end)`;
      so an appointment ending when the new one starts is no conflict. */
  lemma ConflictIsOverlap(rows: map<nat, Appointment>, doctor: nat, date: int, start: TimeOfDay, end: TimeOfDay, exclude: Option<nat>)
    requires start < end
    requires forall pk :: pk in rows ==> rows[pk].time < rows[pk].endTime
    ensures Conflict(rows, doctor, date, start, end, exclude) <==>
      exists pk, m :: pk in rows && rows[pk].doctor == doctor && rows[pk].date == date && Occupies(rows[pk].status)
        && (exclude.None? || pk != exclude.value) && SharesMinute(rows[pk], start, end, m)
  {
    if Conflict(rows, doctor, date, start, end, exclude) {
      var pk :| pk in rows && rows[pk].doctor == doctor && rows[pk].date == date && Occupies(rows[pk].status)
        && rows[pk].time < end && rows[pk].endTime > start && (exclude.None? || pk != exclude.value);
      var m := if rows[pk].time < start then start else rows[pk].time;
      assert SharesMinute(rows[pk], start, end, m);
    }
  }

  /** On update the row being edited never conflicts with itself. */
  lemma UpdateIgnoresItself(rows: map<nat, Appointment>, pk: nat, start: TimeOfDay, end: TimeOfDay)
    requires pk in rows
    ensures !Conflict(map[pk := rows[pk]], rows[pk].doctor, rows[pk].date, start, end, Some(pk))
  {
  }

  // ---------------------------------------------------------------------
  // create

  /** The request carries every field `create` needs. */
  predicate CompleteAttrs(attrs: Attrs) {
    attrs.doctor.Some? && attrs.appointmentType.Some? && attrs.date.Some? && attrs.time.Some?
  }

  /** `create`: fill the duration, then `Appointment.objects.create`, which
      runs `save`. A column the request leaves out takes the model default
      (`scheduled`, a fee of 0, which `save` replaces by the type's cost). A
      zero duration leaves `end_time` unset, and the insert fails (None). */
  function Create(attrs: Attrs, types: map<nat, AppointmentType>, ids: seq<string>, year: nat, month: nat,
                  createdBy: Option<nat>): (r: Option<Appointment>)
    requires CompleteAttrs(attrs) && attrs.appointmentType.value in types
    ensures r.Some? <==> CreateDuration(attrs, types) > 0
    ensures r.Some? ==>
      r.value.status == (if attrs.status.Some? then attrs.status.value else Scheduled)
      && r.value.durationMinutes == CreateDuration(attrs, types)
      && r.value.time == attrs.time.value && r.value.date == attrs.date.value && r.value.doctor == attrs.doctor.value
      && r.value.endTime == EndTime(attrs.time.value, CreateDuration(attrs, types))
      && r.value.appointmentId !in ids
      && r.value.consultationFee == (if attrs.fee.Some? && attrs.fee.value > 0 then attrs.fee.value
                                     else types[attrs.appointmentType.value].cost)
      && r.value.originalAppointment == attrs.originalAppointment
    ensures r.Some? ==>
      r.value.patient == attrs.patient && r.value.appointmentType == attrs.appointmentType.value
      && r.value.createdBy == createdBy && r.value.appointmentId != ""
  {
    var duration := CreateDuration(attrs, types);
    if duration == 0 then None
    else
      var row := Appointment("", attrs.patient, attrs.doctor.value, attrs.appointmentType.value,
                             attrs.date.value, attrs.time.value, duration, attrs.time.value,
                             if attrs.status.Some? then attrs.status.value else Scheduled,
                             if attrs.fee.Some? then attrs.fee.value else 0,
                             None, None, None, None, None, None, attrs.originalAppointment, createdBy);
      Some(Save(row, types[attrs.appointmentType.value], ids, year, month))
  }

  /** What `Validate` accepts and `create` stores overlaps no active
      appointment of the doctor that day, provided the new interval and the
      stored ones do not wrap past midnight. */
  lemma ValidatedCreateHasNoOverlap(attrs: Attrs, today: int, slots: seq<TimeSlot>, rows: map<nat, Appointment>,
                                    types: map<nat, AppointmentType>, ids: seq<string>, year: nat, month: nat,
                                    createdBy: Option<nat>, pk: nat, m: int)
    requires CompleteAttrs(attrs) && attrs.appointmentType.value in types
    requires Validate(attrs, None, today, slots, rows, types) == Accepted
    requires Create(attrs, types, ids, year, month, createdBy).Some?
    requires attrs.time.value + CreateDuration(attrs, types) < MinutesPerDay
    requires forall q :: q in rows ==> rows[q].time < rows[q].endTime
    requires pk in rows && rows[pk].doctor == attrs.doctor.value && rows[pk].date == attrs.date.value
    requires Occupies(rows[pk].status)
    ensures var made := Create(attrs, types, ids, year, month, createdBy).value;
      !SharesMinute(rows[pk], made.time, made.endTime, m)
  {
    var made := Create(attrs, types, ids, year, month, createdBy).value;
    var start := attrs.time.value;
    var end := EndTime(start, CreateDuration(attrs, types));
    assert end == start + CreateDuration(attrs, types);
    assert !Conflict(rows, attrs.doctor.value, attrs.date.value, start, end, None);
    ConflictIsOverlap(rows, attrs.doctor.value, attrs.date.value, start, end, None);
  }

  // ---------------------------------------------------------------------
  // The source's validate lets an overlapping appointment through

  /** The request: doctor 7, a 60-minute type 3, day 738000 at 10:00, no
      duration given. */
  function OverlapRequest(): Attrs {
    Attrs(1, Some(7), Some(3), Some(738000), Some(600), None, None, None, None)
  }

  /** An active appointment of doctor 7 at 10:45-11:15 the same day. */
  function OverlapRows(): map<nat, Appointment> {
    map[1 := Appointment("APT2024010001", 2, 7, 3, 738000, 645, 30, 675, Scheduled, 0,
                         None, None, None, None, None, None, None, None)]
  }

  /** The doctor's window 9:00-17:00 on that weekday. */
  function OverlapSlots(): seq<TimeSlot> {
    [TimeSlot(7, Weekday(738000), 540, 1020, 30, true)]
  }

  /** `validate` checks 10:00-10:30, which is free, and accepts; `create` then
      stores 10:00-11:00, which shares 10:45 with the existing appointment.
      The corrected check refuses the request. */
  lemma AsWrittenAdmitsOverlap(ids: seq<string>)
    ensures ValidateAsWritten(OverlapRequest(), None, 738000, OverlapSlots(), OverlapRows()) == Accepted
    ensures var made := Create(OverlapRequest(), map[3 := AppointmentType(60, 50000, true)], ids, 2024, 1, None);
      made.Some? && made.value.time <= 645 < made.value.endTime
      && OverlapRows()[1].time <= 645 < OverlapRows()[1].endTime
    ensures Validate(OverlapRequest(), None, 738000, OverlapSlots(), OverlapRows(), map[3 := AppointmentType(60, 50000, true)]).Rejected?
  {
    var slots := OverlapSlots();
    assert slots[0].startTime <= 600 <= slots[0].endTime;
    assert DoctorAvailable(slots, 7, 738000, 600);
    var rows := OverlapRows();
    assert !Conflict(rows, 7, 738000, 600, 630, None);
    assert Conflict(rows, 7, 738000, 600, 660, None) by {
      assert 1 in rows;
    }
  }
}
