/** The actions of `AppointmentViewSet` and `WaitingListViewSet` that move an
    appointment or a waiting-list entry through its statuses, and the grouped
    `hospital_calendar`. Each action takes the appointment's key (`pk`); an
    unknown key is `get_object`'s 404. The clock is an input. */
module AppointmentViews {
  import opened Common
  import opened Calendar
  import opened AppointmentModels
  import opened AppointmentSerializers

  datatype Response =
    | Ok(message: string)
    | Created
    | RescheduledAs(newAppointmentId: string)
    | BadRequest(error: string)
    | FieldErrors(fields: seq<string>)
    | NotFound
    | IntegrityError

  /** The clock: the current instant in seconds, and the calendar year and
      month of that instant, which appointment ids are stamped with. */
  datatype Clock = Clock(now: int, year: nat, month: nat)

  /** The status changes the actions of this file and the admin bulk actions
      can make. */
  predicate StatusStep(from: Status, to: Status) {
    (from == Scheduled && to == Confirmed)
    || (from == Confirmed && to == InProgress)
    || ((from == Confirmed || from == InProgress) && to == Completed)
    || (from !in {Completed, Cancelled, NoShow} && to == Cancelled)
    || ((from == Scheduled || from == Confirmed) && to == Rescheduled)
  }

  /** Completed, cancelled and no-show appointments never change status
      again; a rescheduled one can still be cancelled (`can_cancel` does not
      exclude it) but nothing else; no step returns to scheduled. */
  lemma FinalStatuses(from: Status, to: Status)
    ensures from in {Completed, Cancelled, NoShow} ==> !StatusStep(from, to)
    ensures from == Rescheduled ==> (StatusStep(from, to) <==> to == Cancelled)
    ensures !StatusStep(from, Scheduled)
  {
  }

  // ---------------------------------------------------------------------
  // check_in

  /** `check_in`: only a confirmed appointment; `save(update_fields=…)`
      writes the check-in time and the status and nothing else. */
  method CheckIn(store: AppointmentStore, pk: nat, clock: Clock) returns (resp: Response)
    requires store.Valid()
    modifies store`appointments
    ensures store.Valid()
    ensures pk !in old(store.appointments) ==> resp == NotFound
    ensures resp.Ok? <==> pk in old(store.appointments) && old(store.appointments)[pk].status == Confirmed
    ensures resp.Ok? ==>
      resp.message == "Patient checked in successfully"
      && store.appointments == old(store.appointments)[pk := old(store.appointments)[pk].(checkedInAt := Some(clock.now), status := InProgress)]
      && StatusStep(old(store.appointments)[pk].status, store.appointments[pk].status)
    ensures !resp.Ok? ==> store.appointments == old(store.appointments)
    ensures resp.BadRequest? ==> resp.error == "Only confirmed appointments can be checked in"
  {
    if pk !in store.appointments {
      return NotFound;
    }
    var a := store.appointments[pk];
    if a.status != Confirmed {
      return BadRequest("Only confirmed appointments can be checked in");
    }
    store.appointments := store.appointments[pk := a.(checkedInAt := Some(clock.now), status := InProgress)];
    resp := Ok("Patient checked in successfully");
  }

  // ---------------------------------------------------------------------
  // complete

  /** `int(x / 60)` for a whole number of seconds: division truncating
      toward zero. */
  function TruncDiv(a: int, b: int): int
    requires b > 0
  {
    if a >= 0 then a / b else -((-a) / b)
  }

  /** `max(0, int(waiting_time.total_seconds() / 60))` */
  function WaitingMinutes(seconds: int): nat {
    var m := TruncDiv(seconds, 60);
    if m < 0 then 0 else m
  }

  /** Whole minutes rounded down for a late start; zero for a check-in less
      than a minute late, on time or early. */
  lemma WaitingMinutesBounds(seconds: int)
    ensures seconds >= 0 ==> 60 * WaitingMinutes(seconds) <= seconds < 60 * (WaitingMinutes(seconds) + 1)
    ensures seconds < 60 ==> WaitingMinutes(seconds) == 0
  {
    if seconds < 0 {
      assert (-seconds) / 60 >= 0;
    }
  }

  /** The waiting time `complete` records: from the scheduled start to the
      check-in, if there was one; else the old value is kept. */
  function Waiting(a: Appointment): Option<nat> {
    if a.checkedInAt.Some? then Some(WaitingMinutes(a.checkedInAt.value - Instant(a.date, a.time)))
    else a.waitingTimeMinutes
  }

  /** `complete`: only a confirmed or in-progress appointment; then a full
      `save`, which keeps the id and runs `SaveFields`. */
  method Complete(store: AppointmentStore, pk: nat, clock: Clock) returns (resp: Response)
    requires store.Valid()
    modifies store`appointments
    ensures store.Valid()
    ensures pk !in old(store.appointments) ==> resp == NotFound
    ensures resp.Ok? <==> pk in old(store.appointments) && old(store.appointments)[pk].status in {Confirmed, InProgress}
    ensures resp.Ok? ==>
      var a := old(store.appointments)[pk];
      resp.message == "Appointment completed successfully"
      && store.appointments == old(store.appointments)[pk := SaveFields(
           a.(status := Completed, actualEndTime := Some(ClockTime(clock.now)), waitingTimeMinutes := Waiting(a)),
           store.types[a.appointmentType])]
      && StatusStep(a.status, Completed)
    ensures !resp.Ok? ==> store.appointments == old(store.appointments)
    ensures resp.BadRequest? ==> resp.error == "Only confirmed or in-progress appointments can be completed"
  {
    if pk !in store.appointments {
      return NotFound;
    }
    var a := store.appointments[pk];
    if a.status != Confirmed && a.status != InProgress {
      return BadRequest("Only confirmed or in-progress appointments can be completed");
    }
    var done := a.(status := Completed, actualEndTime := Some(ClockTime(clock.now)), waitingTimeMinutes := Waiting(a));
    store.appointments := store.appointments[pk := SaveFields(done, store.types[a.appointmentType])];
    resp := Ok("Appointment completed successfully");
  }

  // ---------------------------------------------------------------------
  // cancel

  /** `cancel`: refused unless `can_cancel`. `reason` is the request's
      `reason` key: None when the key is absent, which stores "", and
      otherwise its value, a JSON null (None) storing NULL. */
  method Cancel(store: AppointmentStore, pk: nat, clock: Clock, actor: nat, reason: Option<Option<string>>)
    returns (resp: Response)
    requires store.Valid()
    modifies store`appointments
    ensures store.Valid()
    ensures pk !in old(store.appointments) ==> resp == NotFound
    ensures resp.Ok? <==> pk in old(store.appointments) && CanCancel(old(store.appointments)[pk], clock.now)
    ensures resp.Ok? ==>
      var a := old(store.appointments)[pk];
      var why := if reason.Some? then reason.value else Some("");
      resp.message == "Appointment cancelled successfully"
      && store.appointments == old(store.appointments)[pk := SaveFields(
           a.(status := Cancelled, cancelledAt := Some(clock.now), cancelledBy := Some(actor), cancellationReason := why),
           store.types[a.appointmentType])]
      && StatusStep(a.status, Cancelled)
      && (forall t :: !CanCancel(store.appointments[pk], t))
    ensures !resp.Ok? ==> store.appointments == old(store.appointments)
    ensures resp.BadRequest? ==> resp.error == "Appointment cannot be cancelled"
  {
    if pk !in store.appointments {
      return NotFound;
    }
    var a := store.appointments[pk];
    if !CanCancel(a, clock.now) {
      return BadRequest("Appointment cannot be cancelled");
    }
    var why := if reason.Some? then reason.value else Some("");
    var done := a.(status := Cancelled, cancelledAt := Some(clock.now), cancelledBy := Some(actor), cancellationReason := why);
    store.appointments := store.appointments[pk := SaveFields(done, store.types[a.appointmentType])];
    resp := Ok("Appointment cancelled successfully");
  }

  // ---------------------------------------------------------------------
  // reschedule

  /** A related-object value in request data: a primary key, or the model
      instance itself. */
  datatype RelatedValue = Key(pk: nat) | Instance(pk: nat)

  /** The data `reschedule` hands to `AppointmentCreateUpdateSerializer`:
      the patient, doctor, type and original appointment, the new date and
      time, and the original's duration. */
  datatype RescheduleData = RescheduleData(patient: RelatedValue, doctor: RelatedValue, appointmentType: RelatedValue,
                                           original: RelatedValue, date: int, time: TimeOfDay, duration: nat)

  datatype Parsed = Parsed(attrs: Attrs) | IncorrectType(fields: seq<string>)

  /** The related fields of `data`, in the model's field order, that carry an
      instance: `PrimaryKeyRelatedField` looks a value up with
      `queryset.get(pk=value)`, and an instance is no integer key (its
      `int()` raises `TypeError`), which the field reports as "Incorrect
      type. Expected pk value". */
  function InstanceFields(d: RescheduleData): (fields: seq<string>)
    ensures fields == [] <==> d.patient.Key? && d.doctor.Key? && d.appointmentType.Key? && d.original.Key?
  {
    (if d.patient.Instance? then ["patient"] else [])
    + (if d.doctor.Instance? then ["doctor"] else [])
    + (if d.appointmentType.Instance? then ["appointment_type"] else [])
    + (if d.original.Instance? then ["original_appointment"] else [])
  }

  /** The field step of `is_valid()`, which runs before `validate`: every
      related field must carry a key. Neither `status` nor the fee is sent, so
      both take the model defaults. */
  function ParseRescheduleData(d: RescheduleData): Parsed {
    if InstanceFields(d) != [] then IncorrectType(InstanceFields(d))
    else Parsed(Attrs(d.patient.pk, Some(d.doctor.pk), Some(d.appointmentType.pk), Some(d.date), Some(d.time),
                      Some(d.duration), Some(d.original.pk), None, None))
  }

  /** `new_appointment_data` as the view builds it: the original's related
      instances themselves. */
  function RescheduleDataAsWritten(pk: nat, a: Appointment, date: int, time: TimeOfDay): RescheduleData {
    RescheduleData(Instance(a.patient), Instance(a.doctor), Instance(a.appointmentType), Instance(pk),
                   date, time, a.durationMinutes)
  }

  /** The data with the instances' keys, as the serializer expects. */
  function RescheduleDataByKey(pk: nat, a: Appointment, date: int, time: TimeOfDay): RescheduleData {
    RescheduleData(Key(a.patient), Key(a.doctor), Key(a.appointmentType), Key(pk), date, time, a.durationMinutes)
  }

  /** The request `reschedule` validates once the fields carry keys: the
      original's patient, doctor, type and duration at the new date and time,
      linked to the original. */
  function RescheduleAttrs(pk: nat, a: Appointment, date: int, time: TimeOfDay): Attrs {
    Attrs(a.patient, Some(a.doctor), Some(a.appointmentType), Some(date), Some(time), Some(a.durationMinutes), Some(pk),
          None, None)
  }

  /** As written, the data never gets past the fields: all four related
      fields are reported, whatever the appointment, date and time. With keys
      it parses to exactly the request `Reschedule` validates. */
  lemma RescheduleDataParsing(pk: nat, a: Appointment, date: int, time: TimeOfDay)
    ensures ParseRescheduleData(RescheduleDataAsWritten(pk, a, date, time))
      == IncorrectType(["patient", "doctor", "appointment_type", "original_appointment"])
    ensures ParseRescheduleData(RescheduleDataByKey(pk, a, date, time)) == Parsed(RescheduleAttrs(pk, a, date, time))
  {
  }

  /** `reschedule` as the source writes it: past the two guards the
      serializer rejects the data for its field types, so the action answers
      400 with the field errors and never marks or creates anything. */
  method RescheduleAsWritten(store: AppointmentStore, pk: nat, clock: Clock,
                             newDate: Option<int>, newTime: Option<TimeOfDay>) returns (resp: Response)
    ensures pk !in store.appointments ==> resp == NotFound
    ensures pk in store.appointments && !CanReschedule(store.appointments[pk], clock.now) ==>
      resp == BadRequest("Appointment cannot be rescheduled")
    ensures pk in store.appointments && CanReschedule(store.appointments[pk], clock.now) && (newDate.None? || newTime.None?) ==>
      resp == BadRequest("new_date and new_time are required")
    ensures pk in store.appointments && CanReschedule(store.appointments[pk], clock.now) && newDate.Some? && newTime.Some? ==>
      resp == FieldErrors(["patient", "doctor", "appointment_type", "original_appointment"])
    ensures !resp.RescheduledAs? && !resp.IntegrityError?
  {
    if pk !in store.appointments {
      return NotFound;
    }
    var a := store.appointments[pk];
    if !CanReschedule(a, clock.now) {
      return BadRequest("Appointment cannot be rescheduled");
    }
    if newDate.None? || newTime.None? {
      return BadRequest("new_date and new_time are required");
    }
    var parsed := ParseRescheduleData(RescheduleDataAsWritten(pk, a, newDate.value, newTime.value));
    resp := FieldErrors(parsed.fields);
  }

  /** `reschedule` with the data sent by key: refused unless `can_reschedule`
      and both the new date and time are given; a request the serializer
      rejects changes nothing. Otherwise the original is saved as rescheduled
      and then the new appointment is created under the next key, with no
      creator (`created_by` is excluded from the serializer, so the value in
      the data is dropped); when that insert fails the original stays
      rescheduled, as no transaction wraps the two saves. */
  method Reschedule(store: AppointmentStore, pk: nat, clock: Clock,
                    newDate: Option<int>, newTime: Option<TimeOfDay>) returns (resp: Response)
    requires store.Valid()
    modifies store`appointments, store`nextPk
    ensures store.Valid()
    ensures pk !in old(store.appointments) ==> resp == NotFound
    ensures resp.NotFound? || resp.BadRequest? ==>
      store.appointments == old(store.appointments) && store.nextPk == old(store.nextPk)
    ensures resp.RescheduledAs? || resp.IntegrityError? ==>
      pk in old(store.appointments)
      && CanReschedule(old(store.appointments)[pk], clock.now) && newDate.Some? && newTime.Some?
      && Validate(RescheduleAttrs(pk, old(store.appointments)[pk], newDate.value, newTime.value), None,
                  DayOf(clock.now), store.timeSlots, old(store.appointments), store.types) == Accepted
      && pk in store.appointments
      && store.appointments[pk] == SaveFields(old(store.appointments)[pk].(status := Rescheduled),
                                              store.types[old(store.appointments)[pk].appointmentType])
      && StatusStep(old(store.appointments)[pk].status, Rescheduled)
    ensures resp.IntegrityError? ==>
      pk in store.appointments && store.appointments == old(store.appointments)[pk := store.appointments[pk]] && store.nextPk == old(store.nextPk)
    ensures resp.RescheduledAs? ==>
      var a := old(store.appointments)[pk];
      var key := old(store.nextPk);
      store.nextPk == key + 1 && key !in old(store.appointments) && pk in store.appointments && key in store.appointments
      && store.appointments == old(store.appointments)[pk := store.appointments[pk]][key := store.appointments[key]]
      && var b := store.appointments[key];
         b.appointmentId == resp.newAppointmentId && b.originalAppointment == Some(pk) && b.createdBy == None
         && b.patient == a.patient && b.doctor == a.doctor && b.appointmentType == a.appointmentType
         && b.date == newDate.value && b.time == newTime.value && b.status == Scheduled
         && (forall q :: q in old(store.appointments) ==> old(store.appointments)[q].appointmentId != b.appointmentId)
  {
    if pk !in store.appointments {
      return NotFound;
    }
    var a := store.appointments[pk];
    if !CanReschedule(a, clock.now) {
      return BadRequest("Appointment cannot be rescheduled");
    }
    if newDate.None? || newTime.None? {
      return BadRequest("new_date and new_time are required");
    }
    var attrs := RescheduleAttrs(pk, a, newDate.value, newTime.value);
    var verdict := Validate(attrs, None, DayOf(clock.now), store.timeSlots, store.appointments, store.types);
    if verdict.Rejected? {
      return BadRequest(verdict.message);
    }
    resp := CommitReschedule(store, pk, clock, newDate.value, newTime.value);
  }

  /** The two saves of an accepted `reschedule`: the original as
      rescheduled, then the new appointment under the next key. */
  method CommitReschedule(store: AppointmentStore, pk: nat, clock: Clock, date: int, time: TimeOfDay)
    returns (resp: Response)
    requires store.Valid() && pk in store.appointments
    modifies store`appointments, store`nextPk
    ensures store.Valid()
    ensures resp.RescheduledAs? || resp.IntegrityError?
    ensures pk in store.appointments
      && store.appointments[pk] == SaveFields(old(store.appointments)[pk].(status := Rescheduled),
                                              store.types[old(store.appointments)[pk].appointmentType])
    ensures resp.IntegrityError? ==>
      store.appointments == old(store.appointments)[pk := store.appointments[pk]] && store.nextPk == old(store.nextPk)
    ensures resp.RescheduledAs? ==>
      var a := old(store.appointments)[pk];
      var key := old(store.nextPk);
      store.nextPk == key + 1 && key !in old(store.appointments) && key in store.appointments
      && store.appointments == old(store.appointments)[pk := store.appointments[pk]][key := store.appointments[key]]
      && var b := store.appointments[key];
         b.appointmentId == resp.newAppointmentId && b.originalAppointment == Some(pk) && b.createdBy == None
         && b.patient == a.patient && b.doctor == a.doctor && b.appointmentType == a.appointmentType
         && b.date == date && b.time == time && b.status == Scheduled
         && (forall q :: q in old(store.appointments) ==> old(store.appointments)[q].appointmentId != b.appointmentId)
  {
    var a := store.appointments[pk];
    var attrs := RescheduleAttrs(pk, a, date, time);
    var ids := store.IdList();
    var typ := store.types[a.appointmentType];
    store.Put(pk, SaveFields(a.(status := Rescheduled), typ));
    var made := Create(attrs, store.types, ids, clock.year, clock.month, None);
    if made.None? {
      return IntegrityError;
    }
    var b := made.value;
    assert forall q :: q in old(store.appointments) ==> old(store.appointments)[q].appointmentId != b.appointmentId;
    var key := store.Insert(b);
    resp := RescheduledAs(b.appointmentId);
  }

  /** The original still holds its time while the new one is validated: a
      move to a start inside the original's own interval that day is always
      refused. */
  lemma RescheduleBlockedByOriginal(pk: nat, rows: map<nat, Appointment>, slots: seq<TimeSlot>,
                                    types: map<nat, AppointmentType>, now: int, time: TimeOfDay)
    requires pk in rows && CanReschedule(rows[pk], now)
    requires rows[pk].durationMinutes > 0
    requires rows[pk].time <= time < rows[pk].endTime
    requires time + rows[pk].durationMinutes < MinutesPerDay
    ensures Validate(RescheduleAttrs(pk, rows[pk], rows[pk].date, time), None, DayOf(now), slots, rows, types).Rejected?
  {
    var a := rows[pk];
    var attrs := RescheduleAttrs(pk, a, a.date, time);
    assert CreateDuration(attrs, types) == a.durationMinutes;
    var end := EndTime(time, a.durationMinutes);
    assert Occupies(a.status);
    assert Conflict(rows, a.doctor, a.date, time, end, None);
  }

  // ---------------------------------------------------------------------
  // add_feedback

  /** The first rating outside 1..5, as the serializer's validators report it. */
  function RatingError(f: Feedback): (e: Option<string>)
    ensures e.None? <==> ValidFeedback(f)
  {
    if !Rating(f.overall) || !Rating(f.doctor) || !Rating(f.staff) || !Rating(f.facility) || !Rating(f.waitTime) then
      var low := f.overall < 1 || (Rating(f.overall) && (f.doctor < 1 || (Rating(f.doctor) && (f.staff < 1
                 || (Rating(f.staff) && (f.facility < 1 || (Rating(f.facility) && f.waitTime < 1)))))));
      Some(if low then "Ensure this value is greater than or equal to 1." else "Ensure this value is less than or equal to 5.")
    else None
  }

  /** The fields `AppointmentFeedbackSerializer` reads from a request; keys
      outside this list are dropped before `save`. */
  const FeedbackFields: set<string> := {"id", "overall_rating", "doctor_rating", "staff_rating", "facility_rating",
    "wait_time_rating", "positive_feedback", "improvement_suggestions", "additional_comments",
    "would_recommend", "is_anonymous", "submitted_at"}

  /** The appointment the saved feedback row points to: the request's
      `appointment` value if the serializer keeps that key. */
  function SavedAppointmentLink(data: map<string, nat>): Option<nat> {
    if "appointment" in FeedbackFields && "appointment" in data then Some(data["appointment"]) else None
  }

  /** `add_feedback` as written: it sets `data['appointment']`, but the
      serializer drops that key, so the row is inserted without its
      appointment and the non-null one-to-one column refuses it. */
  method AddFeedbackAsWritten(store: AppointmentStore, pk: nat, f: Feedback) returns (resp: Response)
    requires store.Valid()
    ensures resp != Created
    ensures resp == IntegrityError <==>
      pk in store.appointments && store.appointments[pk].status == Completed && pk !in store.feedback && ValidFeedback(f)
  {
    if pk !in store.appointments {
      return NotFound;
    }
    if store.appointments[pk].status != Completed {
      return BadRequest("Feedback can only be added for completed appointments");
    }
    if pk in store.feedback {
      return BadRequest("Feedback already exists for this appointment");
    }
    var e := RatingError(f);
    if e.Some? {
      return BadRequest(e.value);
    }
    var link := SavedAppointmentLink(map["appointment" := pk]);
    if link.None? {
      return IntegrityError;
    }
    resp := Created;
  }

  /** The link the view sets is always lost. */
  lemma FeedbackLinkDropped(pk: nat)
    ensures SavedAppointmentLink(map["appointment" := pk]) == None
  {
    assert "appointment" !in FeedbackFields;
  }

  /** `add_feedback` as intended: only for a completed appointment without
      feedback, with every rating in 1..5; the feedback is stored for it. */
  method AddFeedback(store: AppointmentStore, pk: nat, f: Feedback) returns (resp: Response)
    requires store.Valid()
    modifies store`feedback
    ensures store.Valid()
    ensures pk !in store.appointments ==> resp == NotFound
    ensures resp == Created <==>
      pk in store.appointments && store.appointments[pk].status == Completed && pk !in old(store.feedback) && ValidFeedback(f)
    ensures resp == Created ==> store.feedback == old(store.feedback)[pk := f]
    ensures resp != Created ==> store.feedback == old(store.feedback)
    ensures pk in old(store.feedback) ==> store.feedback[pk] == old(store.feedback)[pk]
  {
    if pk !in store.appointments {
      return NotFound;
    }
    if store.appointments[pk].status != Completed {
      return BadRequest("Feedback can only be added for completed appointments");
    }
    if pk in store.feedback {
      return BadRequest("Feedback already exists for this appointment");
    }
    var e := RatingError(f);
    if e.Some? {
      return BadRequest(e.value);
    }
    store.feedback := store.feedback[pk := f];
    resp := Created;
  }

  // ---------------------------------------------------------------------
  // WaitingListViewSet.notify

  /** `notify`: only an active entry becomes notified, stamped with the time. */
  method Notify(store: AppointmentStore, pk: nat, clock: Clock) returns (resp: Response)
    modifies store`waitingList
    ensures pk !in old(store.waitingList) ==> resp == NotFound
    ensures resp.Ok? <==> pk in old(store.waitingList) && old(store.waitingList)[pk].status == ActiveEntry
    ensures resp.Ok? ==>
      resp.message == "Patient notified successfully"
      && store.waitingList == old(store.waitingList)[pk := old(store.waitingList)[pk].(status := NotifiedEntry, notifiedAt := Some(clock.now))]
    ensures !resp.Ok? ==> store.waitingList == old(store.waitingList)
    ensures resp.BadRequest? ==> resp.error == "Only active waiting list entries can be notified"
  {
    if pk !in store.waitingList {
      return NotFound;
    }
    var w := store.waitingList[pk];
    if w.status != ActiveEntry {
      return BadRequest("Only active waiting list entries can be notified");
    }
    store.waitingList := store.waitingList[pk := w.(status := NotifiedEntry, notifiedAt := Some(clock.now))];
    resp := Ok("Patient notified successfully");
  }

  // ---------------------------------------------------------------------
  // hospital_calendar with group_by_doctor

  /** One entry of the grouped calendar: a doctor and that doctor's
      appointments. */
  datatype DoctorGroup = DoctorGroup(doctor: nat, appointments: seq<Appointment>)

  /** The doctor of each appointment, in order. */
  function DoctorsOf(events: seq<Appointment>): (r: seq<nat>)
    ensures |r| == |events|
    ensures forall i :: 0 <= i < |events| ==> r[i] == events[i].doctor
  {
    if events == [] then [] else DoctorsOf(events[..|events| - 1]) + [events[|events| - 1].doctor]
  }

  /** The appointments of one doctor, in order. */
  function OfDoctor(events: seq<Appointment>, doctor: nat): seq<Appointment> {
    if events == [] then []
    else
      var last := events[|events| - 1];
      OfDoctor(events[..|events| - 1], doctor) + if last.doctor == doctor then [last] else []
  }

  /** A doctor's list holds exactly the appointments of that doctor. */
  lemma {:induction false} OfDoctorMembers(events: seq<Appointment>, doctor: nat, e: Appointment)
    ensures e in OfDoctor(events, doctor) <==> e in events && e.doctor == doctor
  {
    if events != [] {
      var p := events[..|events| - 1];
      assert events == p + [events[|events| - 1]];
      OfDoctorMembers(p, doctor, e);
    }
  }

  /** The grouped calendar of `events`: one group per doctor, in the order the
      doctors first appear, each holding that doctor's appointments in order. */
  ghost predicate GroupedBy(groups: seq<DoctorGroup>, events: seq<Appointment>) {
    var ds := Distinct(DoctorsOf(events));
    |groups| == |ds|
    && forall k :: 0 <= k < |groups| ==> groups[k].doctor == ds[k] && groups[k].appointments == OfDoctor(events, ds[k])
  }

  /** One more appointment adds its doctor at the end of the doctors... */
  lemma DoctorsSnoc(events: seq<Appointment>, i: nat)
    requires i < |events|
    ensures DoctorsOf(events[..i + 1]) == DoctorsOf(events[..i]) + [events[i].doctor]
  {
    assert events[..i + 1][..i] == events[..i];
  }

  /** ... and at the end of its doctor's list, leaving the others alone. */
  lemma OfDoctorSnoc(events: seq<Appointment>, i: nat)
    requires i < |events|
    ensures forall d :: OfDoctor(events[..i + 1], d) == OfDoctor(events[..i], d) + if d == events[i].doctor then [events[i]] else []
  {
    assert events[..i + 1][..i] == events[..i];
  }

  /** A doctor who has no appointment has an empty list. */
  lemma NoListForUnseenDoctor(events: seq<Appointment>, d: nat)
    requires d !in DoctorsOf(events)
    ensures OfDoctor(events, d) == []
  {
    var list := OfDoctor(events, d);
    if list != [] {
      OfDoctorMembers(events, d, list[0]);
    }
  }

  /** A doctor seen for the first time opens a new group at the end. */
  lemma NewGroupKeeps(events: seq<Appointment>, i: nat, groups: seq<DoctorGroup>)
    requires i < |events| && GroupedBy(groups, events[..i])
    requires events[i].doctor !in DoctorsOf(events[..i])
    ensures GroupedBy(groups + [DoctorGroup(events[i].doctor, [events[i]])], events[..i + 1])
  {
    var d, e := events[i].doctor, events[i];
    DoctorsSnoc(events, i);
    OfDoctorSnoc(events, i);
    var pre, post := events[..i], events[..i + 1];
    DistinctSnoc(DoctorsOf(pre), d);
    var ds := Distinct(DoctorsOf(pre));
    assert Distinct(DoctorsOf(post)) == ds + [d];
    NoListForUnseenDoctor(pre, d);
    assert OfDoctor(post, d) == [e];
    var groups' := groups + [DoctorGroup(d, [e])];
    assert |groups'| == |ds + [d]|;
    forall k | 0 <= k < |groups'|
      ensures groups'[k].doctor == (ds + [d])[k] && groups'[k].appointments == OfDoctor(post, (ds + [d])[k])
    {
      if k < |groups| {
        assert ds[k] in DoctorsOf(pre);
        assert ds[k] != d;
      }
    }
    assert GroupedBy(groups', post);
  }

  /** A doctor seen before gets the appointment appended to its group. */
  lemma ExtendGroupKeeps(events: seq<Appointment>, i: nat, groups: seq<DoctorGroup>, k: nat)
    requires i < |events| && GroupedBy(groups, events[..i])
    requires k < |groups| && groups[k].doctor == events[i].doctor
    ensures GroupedBy(groups[k := groups[k].(appointments := groups[k].appointments + [events[i]])], events[..i + 1])
  {
    var e := events[i];
    var d := e.doctor;
    var pre, post := events[..i], events[..i + 1];
    DoctorsSnoc(events, i);
    OfDoctorSnoc(events, i);
    var ds := Distinct(DoctorsOf(pre));
    assert d in DoctorsOf(pre) by {
      assert ds[k] == d;
    }
    DistinctSnoc(DoctorsOf(pre), d);
    assert Distinct(DoctorsOf(post)) == ds;
    var groups' := groups[k := groups[k].(appointments := groups[k].appointments + [e])];
    forall j | 0 <= j < |groups'|
      ensures groups'[j].doctor == ds[j] && groups'[j].appointments == OfDoctor(post, ds[j])
    {
      if j != k {
        assert ds[j] != d;
        assert OfDoctor(pre, ds[j]) + [] == OfDoctor(pre, ds[j]);
      }
    }
    assert GroupedBy(groups', post);
  }

  /** The dict of the grouping loop maps each doctor seen so far to the
      position of its group. */
  ghost predicate Indexes(index: map<nat, nat>, groups: seq<DoctorGroup>, seen: seq<Appointment>) {
    (forall d: nat :: d in index <==> d in DoctorsOf(seen))
    && (forall d: nat :: d in index ==> index[d] < |groups| && groups[index[d]].doctor == d)
  }

  /** The dict after one more appointment: its doctor is in it, pointing to
      its group, and the other entries and their groups' doctors are kept. */
  lemma IndexesStep(index: map<nat, nat>, groups: seq<DoctorGroup>, events: seq<Appointment>, i: nat,
                    index': map<nat, nat>, groups': seq<DoctorGroup>)
    requires i < |events| && Indexes(index, groups, events[..i])
    requires |groups'| >= |groups| && forall j :: 0 <= j < |groups| ==> groups'[j].doctor == groups[j].doctor
    requires var d := events[i].doctor; d in index' && index'[d] < |groups'| && groups'[index'[d]].doctor == d
    requires index'.Keys == index.Keys + {events[i].doctor}
    requires forall d :: d in index && d != events[i].doctor ==> index'[d] == index[d]
    ensures Indexes(index', groups', events[..i + 1])
  {
    var e := events[i];
    DoctorsSnoc(events, i);
    forall d: nat
      ensures d in index' <==> d in DoctorsOf(events[..i + 1])
    {
      assert d in DoctorsOf(events[..i]) + [e.doctor] <==> d in DoctorsOf(events[..i]) || d == e.doctor;
    }
    forall d: nat | d in index'
      ensures index'[d] < |groups'| && groups'[index'[d]].doctor == d
    {
      if d != e.doctor {
        assert d in index && index'[d] == index[d];
        assert groups'[index[d]].doctor == groups[index[d]].doctor;
      }
    }
  }

  /** One turn of the grouping loop: open the doctor's group if it is new,
      then append the appointment to it. */
  method GroupOne(groups: seq<DoctorGroup>, index: map<nat, nat>, events: seq<Appointment>, i: nat)
    returns (groups': seq<DoctorGroup>, index': map<nat, nat>)
    requires i < |events| && GroupedBy(groups, events[..i]) && Indexes(index, groups, events[..i])
    ensures GroupedBy(groups', events[..i + 1])
    ensures Indexes(index', groups', events[..i + 1])
  {
    var e := events[i];
    groups', index' := groups, index;
    var unseen := e.doctor !in index';
    if unseen {
      index' := index'[e.doctor := |groups'|];
      groups' := groups' + [DoctorGroup(e.doctor, [])];
    }
    var k := index'[e.doctor];
    groups' := groups'[k := groups'[k].(appointments := groups'[k].appointments + [e])];
    if unseen {
      assert k == |groups| && groups'[k] == DoctorGroup(e.doctor, [e]);
      assert groups' == groups + [DoctorGroup(e.doctor, [e])] by {
        assert |groups'| == |groups| + 1;
        assert forall j :: 0 <= j < |groups| ==> groups'[j] == groups[j];
      }
    }
    IndexesStep(index, groups, events, i, index', groups');
    if unseen {
      NewGroupKeeps(events, i, groups);
    } else {
      ExtendGroupKeeps(events, i, groups, k);
    }
  }

  /** `hospital_calendar` with `group_by_doctor=true`: a dict from doctor id
      to its group, filled in one pass; its values in insertion order. */
  method GroupByDoctor(events: seq<Appointment>) returns (groups: seq<DoctorGroup>)
    ensures GroupedBy(groups, events)
  {
    groups := [];
    var index: map<nat, nat> := map[];
    for i := 0 to |events|
      invariant GroupedBy(groups, events[..i]) && Indexes(index, groups, events[..i])
    {
      groups, index := GroupOne(groups, index, events, i);
    }
    assert events[..|events|] == events;
  }

  /** Every appointment sits in exactly one group, its doctor's. */
  lemma ExactlyOneGroup(groups: seq<DoctorGroup>, events: seq<Appointment>, i: nat)
    requires GroupedBy(groups, events) && i < |events|
    ensures exists k :: 0 <= k < |groups| && groups[k].doctor == events[i].doctor && events[i] in groups[k].appointments
    ensures forall k, k' :: (0 <= k < |groups| && 0 <= k' < |groups| && events[i] in groups[k].appointments
      && events[i] in groups[k'].appointments) ==> k == k'
  {
    var ds := Distinct(DoctorsOf(events));
    assert DoctorsOf(events)[i] == events[i].doctor;
    var k :| 0 <= k < |ds| && ds[k] == events[i].doctor;
    OfDoctorMembers(events, events[i].doctor, events[i]);
    forall k, k' | 0 <= k < |groups| && 0 <= k' < |groups| && events[i] in groups[k].appointments
      && events[i] in groups[k'].appointments
      ensures k == k'
    {
      OfDoctorMembers(events, ds[k], events[i]);
      OfDoctorMembers(events, ds[k'], events[i]);
    }
  }

  /** The groups come in the order in which their doctors first appear. */
  lemma GroupsInFirstAppearanceOrder(groups: seq<DoctorGroup>, events: seq<Appointment>, k: nat, k': nat)
    requires GroupedBy(groups, events) && k < k' < |groups|
    ensures groups[k].doctor in DoctorsOf(events) && groups[k'].doctor in DoctorsOf(events)
    ensures FirstIndex(DoctorsOf(events), groups[k].doctor) < FirstIndex(DoctorsOf(events), groups[k'].doctor)
  {
    DistinctFirstAppearance(DoctorsOf(events), k, k');
  }
}
