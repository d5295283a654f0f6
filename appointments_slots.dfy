/** `AppointmentViewSet.available_slots`: for each day of the range, each of
    the doctor's available windows on that weekday is cut into
    `slot_duration`-minute slots from its start, and a slot is offered unless
    an active appointment of the doctor starts at that very time. */
module AppointmentSlots {
  import opened Common
  import opened Calendar
  import opened AppointmentModels

  /** One offered slot: its date, start, end and length. */
  datatype Slot = Slot(date: int, time: TimeOfDay, endTime: TimeOfDay, durationMinutes: nat)

  /** The `date` query parameter: absent, not `YYYY-MM-DD`, or a day. */
  datatype DateParam = NoDate | Malformed | OnDate(day: int)

  datatype SlotsResponse = Slots(slots: seq<Slot>) | BadRequest(error: string) | NotFound(error: string)

  /** An active appointment of the doctor starts at exactly that date and time. */
  predicate Booked(rows: map<nat, Appointment>, doctor: nat, date: int, time: int) {
    exists pk :: pk in rows && rows[pk].doctor == doctor && rows[pk].date == date && rows[pk].time == time
      && Occupies(rows[pk].status)
  }

  /** A window of the doctor, on the weekday of `date`, marked available. */
  predicate Serves(w: TimeSlot, doctor: nat, date: int) {
    w.doctor == doctor && w.dayOfWeek == Weekday(date) && w.isAvailable
  }

  /** `doctor.time_slots.filter(day_of_week=…, is_available=True)`, in table order. */
  function DayWindows(slots: seq<TimeSlot>, doctor: nat, date: int): (r: seq<TimeSlot>)
    ensures forall w :: w in r <==> w in slots && Serves(w, doctor, date)
  {
    if slots == [] then []
    else
      var last := slots[|slots| - 1];
      assert slots == slots[..|slots| - 1] + [last];
      DayWindows(slots[..|slots| - 1], doctor, date) + if Serves(last, doctor, date) then [last] else []
  }

  /** Windows in ascending start time. */
  predicate StartsAscending(ws: seq<TimeSlot>) {
    forall i, j :: 0 <= i < j < |ws| ==> ws[i].startTime <= ws[j].startTime
  }

  /** Taken from rows in the table's order, a day's windows come in
      ascending start time. */
  lemma {:induction false} DayWindowsAscending(slots: seq<TimeSlot>, doctor: nat, date: int)
    requires SlotsOrdered(slots)
    ensures StartsAscending(DayWindows(slots, doctor, date))
  {
    if slots != [] {
      var init, last := slots[..|slots| - 1], slots[|slots| - 1];
      assert SlotsOrdered(init);
      DayWindowsAscending(init, doctor, date);
      var r0 := DayWindows(init, doctor, date);
      assert slots == init + [last];
      if Serves(last, doctor, date) {
        forall w | w in r0
          ensures w.startTime <= last.startTime
        {
          assert w in init && w.dayOfWeek == last.dayOfWeek;
          var k :| 0 <= k < |init| && init[k] == w;
          assert slots[k] == w;
        }
        AppendAscending(r0, last);
      }
    }
  }

  /** A window starting no earlier than every one before keeps the order. */
  lemma AppendAscending(ws: seq<TimeSlot>, w: TimeSlot)
    requires StartsAscending(ws)
    requires forall v :: v in ws ==> v.startTime <= w.startTime
    ensures StartsAscending(ws + [w])
  {
    var r := ws + [w];
    forall i, j | 0 <= i < j < |r|
      ensures r[i].startTime <= r[j].startTime
    {
      assert r[i] == ws[i];
      if j == |ws| {
        assert ws[i] in ws;
      } else {
        assert r[j] == ws[j];
      }
    }
  }

  /** The slots of window `w` on `date` from `start` on: while a whole slot
      still fits before the window's end, offer it unless booked, and step
      by the slot length. A window with a zero slot length offers nothing. */
  function SlotsFrom(rows: map<nat, Appointment>, doctor: nat, date: int, w: TimeSlot, start: nat): seq<Slot>
    decreases w.endTime - start
  {
    if w.slotDuration == 0 || start + w.slotDuration > w.endTime then []
    else
      (if Booked(rows, doctor, date, start) then [] else [Slot(date, start, start + w.slotDuration, w.slotDuration)])
      + SlotsFrom(rows, doctor, date, w, start + w.slotDuration)
  }

  /** One turn of the inner loop: a whole slot that fits is offered unless
      booked, and the rest starts one slot length later. */
  lemma SlotsFromStep(rows: map<nat, Appointment>, doctor: nat, date: int, w: TimeSlot, start: nat)
    requires w.slotDuration > 0 && start + w.slotDuration <= w.endTime
    ensures SlotsFrom(rows, doctor, date, w, start)
            == (if Booked(rows, doctor, date, start) then [] else [Slot(date, start, start + w.slotDuration, w.slotDuration)])
               + SlotsFrom(rows, doctor, date, w, start + w.slotDuration)
  {
  }

  /** The slots of the windows `ws` on `date`, window after window. */
  function DaySlots(rows: map<nat, Appointment>, doctor: nat, date: int, ws: seq<TimeSlot>): seq<Slot> {
    if ws == [] then []
    else
      var w := ws[|ws| - 1];
      DaySlots(rows, doctor, date, ws[..|ws| - 1]) + SlotsFrom(rows, doctor, date, w, w.startTime)
  }

  /** The slots of the days `from` to `to`, day after day. */
  function RangeSlots(rows: map<nat, Appointment>, slots: seq<TimeSlot>, doctor: nat, from: int, to: int): seq<Slot>
    decreases to - from
  {
    if to < from then []
    else RangeSlots(rows, slots, doctor, from, to - 1) + DaySlots(rows, doctor, to, DayWindows(slots, doctor, to))
  }

  /** The `k`-th step of length `d` after `start`. */
  function GridPoint(start: int, k: nat, d: nat): int {
    start + k * d
  }

  /** `x` is a slot of window `w` on the grid that starts at `start`: a whole
      number of slot lengths after it, ending one slot length later, no later
      than the window's end. */
  ghost predicate OnGrid(x: Slot, w: TimeSlot, start: int) {
    w.slotDuration > 0 && (exists k: nat :: x.time == GridPoint(start, k, w.slotDuration))
    && x.time + w.slotDuration <= w.endTime && x.endTime == x.time + w.slotDuration
    && x.durationMinutes == w.slotDuration
  }

  /** What the inner loop offers lies on the window's grid and is not booked. */
  lemma {:induction false} SlotsFromSound(rows: map<nat, Appointment>, doctor: nat, date: int, w: TimeSlot, start: nat, x: Slot)
    decreases w.endTime - start
    requires x in SlotsFrom(rows, doctor, date, w, start)
    ensures x.date == date && OnGrid(x, w, start) && !Booked(rows, doctor, date, x.time)
  {
    var d := w.slotDuration;
    var here := if Booked(rows, doctor, date, start) then [] else [Slot(date, start, start + d, d)];
    if x in here {
      assert x.time == GridPoint(start, 0, d);
    } else {
      SlotsFromSound(rows, doctor, date, w, start + d, x);
      var k: nat :| x.time == GridPoint(start + d, k, d);
      assert x.time == GridPoint(start, k + 1, d);
    }
  }

  /** Every free grid point of the window from `start` on is offered. */
  lemma {:induction false} SlotsFromComplete(rows: map<nat, Appointment>, doctor: nat, date: int, w: TimeSlot, start: nat,
                                             k: nat, t: TimeOfDay)
    decreases k
    requires w.slotDuration > 0 && t == GridPoint(start, k, w.slotDuration)
    requires t + w.slotDuration <= w.endTime && !Booked(rows, doctor, date, t)
    ensures Slot(date, t, t + w.slotDuration, w.slotDuration) in SlotsFrom(rows, doctor, date, w, start)
  {
    var d := w.slotDuration;
    if k > 0 {
      assert t == GridPoint(start + d, k - 1, d);
      SlotsFromComplete(rows, doctor, date, w, start + d, k - 1, t);
    }
  }

  /** The slots of a day come from its windows, and every free grid point of
      each window is among them. */
  lemma {:induction false} DaySlotsSound(rows: map<nat, Appointment>, doctor: nat, date: int, ws: seq<TimeSlot>, x: Slot)
    requires x in DaySlots(rows, doctor, date, ws)
    ensures x.date == date && !Booked(rows, doctor, date, x.time)
    ensures exists w :: w in ws && OnGrid(x, w, w.startTime)
  {
    var w := ws[|ws| - 1];
    if x in SlotsFrom(rows, doctor, date, w, w.startTime) {
      SlotsFromSound(rows, doctor, date, w, w.startTime, x);
    } else {
      DaySlotsSound(rows, doctor, date, ws[..|ws| - 1], x);
      var v :| v in ws[..|ws| - 1] && OnGrid(x, v, v.startTime);
      assert v in ws;
    }
  }

  lemma {:induction false} DaySlotsComplete(rows: map<nat, Appointment>, doctor: nat, date: int, ws: seq<TimeSlot>, w: TimeSlot,
                                            k: nat, t: TimeOfDay)
    requires w in ws && w.slotDuration > 0 && t == GridPoint(w.startTime, k, w.slotDuration)
    requires t + w.slotDuration <= w.endTime && !Booked(rows, doctor, date, t)
    ensures Slot(date, t, t + w.slotDuration, w.slotDuration) in DaySlots(rows, doctor, date, ws)
  {
    if w == ws[|ws| - 1] {
      SlotsFromComplete(rows, doctor, date, w, w.startTime, k, t);
    } else {
      assert w in ws[..|ws| - 1] by {
        assert ws == ws[..|ws| - 1] + [ws[|ws| - 1]];
      }
      DaySlotsComplete(rows, doctor, date, ws[..|ws| - 1], w, k, t);
    }
  }

  /** Soundness: every offered slot is a day of the range, on the grid of an
      available window of the doctor for that weekday, and not booked. */
  lemma {:induction false} RangeSlotsSound(rows: map<nat, Appointment>, slots: seq<TimeSlot>, doctor: nat, from: int, to: int, x: Slot)
    decreases to - from
    requires x in RangeSlots(rows, slots, doctor, from, to)
    ensures from <= x.date <= to && !Booked(rows, doctor, x.date, x.time)
    ensures exists w :: w in slots && Serves(w, doctor, x.date) && OnGrid(x, w, w.startTime)
  {
    assert from <= to;
    var ws := DayWindows(slots, doctor, to);
    if x in DaySlots(rows, doctor, to, ws) {
      DaySlotsSound(rows, doctor, to, ws, x);
      var w :| w in ws && OnGrid(x, w, w.startTime);
      assert w in slots && Serves(w, doctor, x.date);
    } else {
      RangeSlotsSound(rows, slots, doctor, from, to - 1, x);
    }
  }

  /** Completeness: every free grid point of every available window of the
      doctor, on every day of the range, is offered. */
  lemma {:induction false} RangeSlotsComplete(rows: map<nat, Appointment>, slots: seq<TimeSlot>, doctor: nat, from: int, to: int,
                                              date: int, w: TimeSlot, k: nat, t: TimeOfDay)
    decreases to - from
    requires from <= date <= to && w in slots && Serves(w, doctor, date)
    requires w.slotDuration > 0 && t == GridPoint(w.startTime, k, w.slotDuration)
    requires t + w.slotDuration <= w.endTime && !Booked(rows, doctor, date, t)
    ensures Slot(date, t, t + w.slotDuration, w.slotDuration) in RangeSlots(rows, slots, doctor, from, to)
  {
    var x := Slot(date, t, t + w.slotDuration, w.slotDuration);
    var before := RangeSlots(rows, slots, doctor, from, to - 1);
    var ws := DayWindows(slots, doctor, to);
    assert RangeSlots(rows, slots, doctor, from, to) == before + DaySlots(rows, doctor, to, ws);
    if date == to {
      assert w in ws;
      DaySlotsComplete(rows, doctor, date, ws, w, k, t);
    } else {
      RangeSlotsComplete(rows, slots, doctor, from, to - 1, date, w, k, t);
      assert x in before;
    }
  }

  /** The slots' dates never decrease along the sequence. */
  predicate DatesAscending(r: seq<Slot>) {
    forall i, j :: 0 <= i <= j < |r| ==> r[i].date <= r[j].date
  }

  /** The days are visited in ascending order. */
  lemma {:induction false} RangeSlotsAscending(rows: map<nat, Appointment>, slots: seq<TimeSlot>, doctor: nat, from: int, to: int)
    decreases to - from
    ensures DatesAscending(RangeSlots(rows, slots, doctor, from, to))
  {
    if from <= to {
      var before := RangeSlots(rows, slots, doctor, from, to - 1);
      var ws := DayWindows(slots, doctor, to);
      var day := DaySlots(rows, doctor, to, ws);
      RangeSlotsAscending(rows, slots, doctor, from, to - 1);
      assert RangeSlots(rows, slots, doctor, from, to) == before + day;
      RangeSlotsBefore(rows, slots, doctor, from, to - 1);
      DaySlotsOnDate(rows, doctor, to, ws);
      ConcatDatesAscending(before, day, to);
    }
  }

  /** The slots of a range lie on or before its last day. */
  lemma RangeSlotsBefore(rows: map<nat, Appointment>, slots: seq<TimeSlot>, doctor: nat, from: int, to: int)
    ensures forall x :: x in RangeSlots(rows, slots, doctor, from, to) ==> x.date <= to
  {
    forall x | x in RangeSlots(rows, slots, doctor, from, to)
      ensures x.date <= to
    {
      RangeSlotsSound(rows, slots, doctor, from, to, x);
    }
  }

  /** The slots of a day are on that day. */
  lemma DaySlotsOnDate(rows: map<nat, Appointment>, doctor: nat, date: int, ws: seq<TimeSlot>)
    ensures forall x :: x in DaySlots(rows, doctor, date, ws) ==> x.date == date
  {
    forall x | x in DaySlots(rows, doctor, date, ws)
      ensures x.date == date
    {
      DaySlotsSound(rows, doctor, date, ws, x);
    }
  }

  /** Slots up to `date` followed by slots on `date` keep the date order. */
  lemma ConcatDatesAscending(a: seq<Slot>, b: seq<Slot>, date: int)
    requires DatesAscending(a)
    requires forall x :: x in a ==> x.date <= date
    requires forall x :: x in b ==> x.date == date
    ensures DatesAscending(a + b)
  {
    var r := a + b;
    forall i, j | 0 <= i <= j < |r|
      ensures r[i].date <= r[j].date
    {
      if j < |a| {
        assert r[i] == a[i] && r[j] == a[j];
      } else {
        assert r[j] == b[j - |a|] && b[j - |a|] in b;
        if i < |a| {
          assert r[i] == a[i] && a[i] in a;
        } else {
          assert r[i] == b[i - |a|] && b[i - |a|] in b;
        }
      }
    }
  }

  /** `available_slots`. Without a date the range is today and the seven days
      after it, both ends included; with one it is that day alone. */
  method AvailableSlots(store: AppointmentStore, doctorId: Option<nat>, date: DateParam, today: int) returns (r: SlotsResponse)
    ensures doctorId.None? ==> r == BadRequest("doctor_id parameter is required")
    ensures doctorId.Some? && date.Malformed? ==> r == BadRequest("Invalid date format. Use YYYY-MM-DD")
    ensures doctorId.Some? && !date.Malformed? && doctorId.value !in store.doctors ==> r == NotFound("Doctor not found")
    ensures r.Slots? <==> doctorId.Some? && !date.Malformed? && doctorId.value in store.doctors
    ensures r.Slots? && date.NoDate? ==> r.slots == RangeSlots(store.appointments, store.timeSlots, doctorId.value, today, today + 7)
    ensures r.Slots? && date.OnDate? ==> r.slots == RangeSlots(store.appointments, store.timeSlots, doctorId.value, date.day, date.day)
  {
    if doctorId.None? {
      return BadRequest("doctor_id parameter is required");
    }
    var start, end;
    match date {
      case NoDate =>
        start, end := today, today + 7;
      case Malformed =>
        return BadRequest("Invalid date format. Use YYYY-MM-DD");
      case OnDate(d) =>
        start, end := d, d;
    }
    var doctor := doctorId.value;
    if doctor !in store.doctors {
      return NotFound("Doctor not found");
    }
    var out: seq<Slot> := [];
    var current := start;
    while current <= end
      invariant start <= current <= end + 1
      invariant out == RangeSlots(store.appointments, store.timeSlots, doctor, start, current - 1)
      decreases end - current
    {
      out := DayOfSlots(store, doctor, current, out);
      current := current + 1;
    }
    r := Slots(out);
  }

  /** One turn of the outer loop: the day's windows, one after another. */
  method DayOfSlots(store: AppointmentStore, doctor: nat, date: int, out: seq<Slot>) returns (out': seq<Slot>)
    ensures out' == out + DaySlots(store.appointments, doctor, date, DayWindows(store.timeSlots, doctor, date))
  {
    var windows := DayWindows(store.timeSlots, doctor, date);
    out' := out;
    for j := 0 to |windows|
      invariant out' == out + DaySlots(store.appointments, doctor, date, windows[..j])
    {
      var w := windows[j];
      out' := WindowSlots(store, doctor, date, w, out');
      assert windows[..j + 1][..j] == windows[..j];
    }
    assert windows[..|windows|] == windows;
  }

  /** The inner loop over one window: append its free slots to `out`. A
      window with a zero slot length is skipped. */
  method WindowSlots(store: AppointmentStore, doctor: nat, date: int, w: TimeSlot, out: seq<Slot>) returns (out': seq<Slot>)
    ensures out' == out + SlotsFrom(store.appointments, doctor, date, w, w.startTime)
  {
    out' := out;
    if w.slotDuration == 0 {
      return;
    }
    var d := w.slotDuration;
    var current: nat := w.startTime;
    while current + d <= w.endTime
      invariant out' + SlotsFrom(store.appointments, doctor, date, w, current)
                == out + SlotsFrom(store.appointments, doctor, date, w, w.startTime)
      decreases w.endTime - current
    {
      var booked := Booked(store.appointments, doctor, date, current);
      SlotsFromStep(store.appointments, doctor, date, w, current);
      if !booked {
        out' := out' + [Slot(date, current, current + d, d)];
      }
      current := current + d;
    }
  }

  // ---------------------------------------------------------------------
  // The source's inner loop with a zero slot length

  /** The inner loop as written, run for at most `fuel` turns: None when it
      has not finished by then. */
  function SlotsFromAsWritten(rows: map<nat, Appointment>, doctor: nat, date: int, w: TimeSlot, start: nat, fuel: nat)
    : Option<seq<Slot>>
    decreases fuel
  {
    if start + w.slotDuration > w.endTime then Some([])
    else if fuel == 0 then None
    else
      var rest := SlotsFromAsWritten(rows, doctor, date, w, start + w.slotDuration, fuel - 1);
      if rest.None? then None
      else Some((if Booked(rows, doctor, date, start) then [] else [Slot(date, start, start + w.slotDuration, w.slotDuration)])
                + rest.value)
  }

  /** A window whose slot length is zero (the field accepts 0, and `clean`
      checks only the times) keeps the source's loop at its first slot
      however many turns it is given. */
  lemma {:induction false} AsWrittenZeroLengthNeverEnds(rows: map<nat, Appointment>, doctor: nat, date: int, w: TimeSlot, fuel: nat)
    requires w.slotDuration == 0 && w.startTime <= w.endTime
    ensures SlotsFromAsWritten(rows, doctor, date, w, w.startTime, fuel) == None
  {
    if fuel > 0 {
      AsWrittenZeroLengthNeverEnds(rows, doctor, date, w, fuel - 1);
    }
  }

  /** With a positive slot length the source's loop ends within
      `(end - start) / length + 1` turns and offers exactly `SlotsFrom`. */
  lemma {:induction false} AsWrittenAgreesWhenPositive(rows: map<nat, Appointment>, doctor: nat, date: int, w: TimeSlot,
                                                       start: nat, fuel: nat)
    decreases fuel
    requires w.slotDuration > 0 && fuel * w.slotDuration > w.endTime - start
    ensures SlotsFromAsWritten(rows, doctor, date, w, start, fuel) == Some(SlotsFrom(rows, doctor, date, w, start))
  {
    if start + w.slotDuration <= w.endTime {
      assert fuel > 0;
      assert (fuel - 1) * w.slotDuration > w.endTime - (start + w.slotDuration);
      AsWrittenAgreesWhenPositive(rows, doctor, date, w, start + w.slotDuration, fuel - 1);
    }
  }
}
