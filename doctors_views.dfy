/** The doctor endpoints that change the tables: adding and removing a
    specialty, adding a review (which recomputes the rating columns) and
    setting one availability entry. Each takes the doctor's key from the URL;
    an unknown key is the 404 of `get_object`. */
module DoctorViews {
  import opened Common
  import opened Calendar
  import opened DoctorModels

  datatype Response =
    | Ok(message: string)
    | Created
    | BadRequest(error: string)
    | NotFound(error: string)
    | NoSuchDoctor
    | Invalid
    | IntegrityError

  // ---------------------------------------------------------------------
  // add_specialty and remove_specialty

  /** `DoctorSpecialty.objects.filter(doctor=…, is_primary=True).update(is_primary=False)` */
  function ClearPrimaries(links: map<(nat, nat), SpecialtyLink>, doctor: nat): (r: map<(nat, nat), SpecialtyLink>)
    ensures r.Keys == links.Keys
    ensures PrimariesOf(r, doctor) == {}
    ensures forall d :: d != doctor ==> PrimariesOf(r, d) == PrimariesOf(links, d)
  {
    var r := map k | k in links :: if k.0 == doctor then links[k].(isPrimary := false) else links[k];
    assert forall d :: d != doctor ==> PrimariesOf(r, d) == PrimariesOf(links, d) by {
      forall d | d != doctor
        ensures PrimariesOf(r, d) == PrimariesOf(links, d)
      {
        assert forall k :: k in links && k.0 == d ==> r[k] == links[k];
      }
    }
    r
  }

  /** A new link for `doctor`: a primary one after the doctor's primaries
      were cleared, or a non-primary one, keeps every doctor at one primary
      at most; the doctor's primaries are then the new one, or as before. */
  lemma {:induction false} AddLinkKeepsOnePrimary(links: map<(nat, nat), SpecialtyLink>, doctor: nat, s: nat,
                                                  isPrimary: bool, years: nat)
    requires AtMostOnePrimary(links)
    ensures var base := if isPrimary then ClearPrimaries(links, doctor) else links;
      var r := base[(doctor, s) := SpecialtyLink(isPrimary, years)];
      AtMostOnePrimary(r)
      && (isPrimary ==> PrimariesOf(r, doctor) == {s})
      && (!isPrimary && (doctor, s) !in links ==> PrimariesOf(r, doctor) == PrimariesOf(links, doctor))
  {
    var base := if isPrimary then ClearPrimaries(links, doctor) else links;
    var r := base[(doctor, s) := SpecialtyLink(isPrimary, years)];
    forall d: nat, s1: nat, s2: nat | (d, s1) in r && (d, s2) in r && r[(d, s1)].isPrimary && r[(d, s2)].isPrimary
      ensures s1 == s2
    {
      if d == doctor && isPrimary {
        assert s1 !in PrimariesOf(base, doctor) && s2 !in PrimariesOf(base, doctor);
      } else if d != doctor && isPrimary {
        assert s1 in PrimariesOf(base, d) && s2 in PrimariesOf(base, d);
        assert s1 in PrimariesOf(links, d) && s2 in PrimariesOf(links, d);
      } else {
        assert (d, s1) != (doctor, s) && (d, s2) != (doctor, s);
      }
    }
    if isPrimary {
      assert forall x :: x in PrimariesOf(r, doctor) ==> (x == s || x in PrimariesOf(base, doctor));
    }
  }

  /** Removing a link never creates a second primary. */
  lemma RemoveLinkKeepsOnePrimary(links: map<(nat, nat), SpecialtyLink>, key: (nat, nat))
    requires AtMostOnePrimary(links)
    ensures AtMostOnePrimary(links - {key})
  {
  }

  /** `add_specialty`. `is_primary` and `years_of_experience` default to false
      and 0. */
  method AddSpecialty(store: DoctorStore, doctor: nat, specialtyId: Option<nat>, isPrimary: bool, years: nat)
    returns (r: Response)
    requires store.Valid()
    modifies store`links
    ensures store.Valid()
    ensures doctor !in store.doctors ==> r == NoSuchDoctor
    ensures doctor in store.doctors && MissingId(specialtyId) ==> r == BadRequest("specialty_id is required")
    ensures doctor in store.doctors && !MissingId(specialtyId) && specialtyId.value !in store.specialties
            ==> r == NotFound("Specialty not found")
    ensures (doctor in store.doctors && !MissingId(specialtyId) && specialtyId.value in store.specialties
             && (doctor, specialtyId.value) in old(store.links))
            ==> r == BadRequest("Doctor already has this specialty")
    ensures r.Created? <==>
      doctor in store.doctors && !MissingId(specialtyId) && specialtyId.value in store.specialties
      && (doctor, specialtyId.value) !in old(store.links)
    ensures !r.Created? ==> store.links == old(store.links)
    ensures r.Created? ==>
      store.links == (if isPrimary then ClearPrimaries(old(store.links), doctor) else old(store.links))
                       [(doctor, specialtyId.value) := SpecialtyLink(isPrimary, years)]
    ensures r.Created? && isPrimary ==> PrimariesOf(store.links, doctor) == {specialtyId.value}
    ensures r.Created? && !isPrimary ==> PrimariesOf(store.links, doctor) == PrimariesOf(old(store.links), doctor)
  {
    if doctor !in store.doctors {
      return NoSuchDoctor;
    }
    if MissingId(specialtyId) {
      return BadRequest("specialty_id is required");
    }
    var s := specialtyId.value;
    if s !in store.specialties {
      return NotFound("Specialty not found");
    }
    if (doctor, s) in store.links {
      return BadRequest("Doctor already has this specialty");
    }
    AddLinkKeepsOnePrimary(store.links, doctor, s, isPrimary, years);
    if isPrimary {
      store.links := ClearPrimaries(store.links, doctor);
    }
    store.links := store.links[(doctor, s) := SpecialtyLink(isPrimary, years)];
    r := Created;
  }

  /** `remove_specialty`: deletes that one link, if the doctor has it. */
  method RemoveSpecialty(store: DoctorStore, doctor: nat, specialtyId: Option<nat>) returns (r: Response)
    requires store.Valid()
    modifies store`links
    ensures store.Valid()
    ensures doctor !in store.doctors ==> r == NoSuchDoctor
    ensures doctor in store.doctors && MissingId(specialtyId) ==> r == BadRequest("specialty_id is required")
    ensures doctor in store.doctors && !MissingId(specialtyId) && (doctor, specialtyId.value) !in old(store.links)
            ==> r == NotFound("Doctor does not have this specialty")
    ensures r.Ok? <==> doctor in store.doctors && !MissingId(specialtyId) && (doctor, specialtyId.value) in old(store.links)
    ensures r.Ok? ==>
      r.message == "Specialty removed successfully" && store.links == old(store.links) - {(doctor, specialtyId.value)}
    ensures !r.Ok? ==> store.links == old(store.links)
  {
    if doctor !in store.doctors {
      return NoSuchDoctor;
    }
    if MissingId(specialtyId) {
      return BadRequest("specialty_id is required");
    }
    var key := (doctor, specialtyId.value);
    if key !in store.links {
      return NotFound("Doctor does not have this specialty");
    }
    RemoveLinkKeepsOnePrimary(store.links, key);
    store.links := store.links - {key};
    r := Ok("Specialty removed successfully");
  }

  // ---------------------------------------------------------------------
  // add_review

  /** The ratings of the doctor's reviews, in table order. */
  function RatingsOf(reviews: seq<Review>, doctor: nat): (r: seq<int>)
    ensures |r| <= |reviews|
  {
    if reviews == [] then []
    else
      var last := reviews[|reviews| - 1];
      RatingsOf(reviews[..|reviews| - 1], doctor) + if last.doctor == doctor then [last.rating] else []
  }

  function Sum(xs: seq<int>): int {
    if xs == [] then 0 else Sum(xs[..|xs| - 1]) + xs[|xs| - 1]
  }

  /** Every rating lies in 1..5. */
  predicate AllRatings(xs: seq<int>) {
    forall i :: 0 <= i < |xs| ==> 1 <= xs[i] <= 5
  }

  /** `round(n / d)` for the exact quotient, halves to even, as Python's
      `round` does; the result is within half of `d` of the quotient. */
  function RoundHalfEven(n: nat, d: nat): (q: nat)
    requires d > 0
    ensures 2 * (q * d - n) <= d && 2 * (n - q * d) <= d
  {
    var q0 := n / d;
    var r := n % d;
    assert n == q0 * d + r;
    if 2 * r < d || (2 * r == d && q0 % 2 == 0) then q0
    else
      assert (q0 + 1) * d == q0 * d + d;
      q0 + 1
  }

  /** `round(avg_rating, 2)` of the doctor's reviews, in hundredths. */
  function MeanHundredths(ratings: seq<int>): nat
    requires |ratings| > 0 && AllRatings(ratings)
  {
    SumBounds(ratings);
    RoundHalfEven(100 * Sum(ratings), |ratings|)
  }

  /** Ratings in 1..5 sum to between their count and five times it. */
  lemma {:induction false} SumBounds(xs: seq<int>)
    requires AllRatings(xs)
    ensures |xs| <= Sum(xs) <= 5 * |xs|
  {
    if xs != [] {
      assert AllRatings(xs[..|xs| - 1]) by {
        assert forall i :: 0 <= i < |xs| - 1 ==> xs[..|xs| - 1][i] == xs[i];
      }
      SumBounds(xs[..|xs| - 1]);
    }
  }

  /** Multiplying both sides by a non-negative factor keeps `<=`. */
  lemma MulMonotone(x: int, y: int, t: nat)
    requires x <= y
    ensures x * t <= y * t
  {
    assert y * t - x * t == (y - x) * t;
  }

  /** Below `lo` by at least one step: the multiple is a whole `d` short. */
  lemma StepShort(q: int, lo: int, d: int, n: int)
    requires d > 0 && q < lo && lo * d <= n
    ensures n - q * d >= d
  {
    MulMonotone(q + 1, lo, d);
    assert (q + 1) * d == q * d + d;
  }

  /** Above `hi` by at least one step: the multiple is a whole `d` over. */
  lemma StepOver(q: int, hi: int, d: int, n: int)
    requires d > 0 && q > hi && n <= hi * d
    ensures q * d - n >= d
  {
    MulMonotone(hi + 1, q, d);
    assert (hi + 1) * d == hi * d + d;
  }

  /** A value within half a step of a quotient in [lo, hi] rounds into [lo, hi]. */
  lemma RoundedWithin(n: int, d: int, q: int, lo: int, hi: int)
    requires d > 0 && lo * d <= n <= hi * d
    requires 2 * (q * d - n) <= d && 2 * (n - q * d) <= d
    ensures lo <= q <= hi
  {
    if q < lo {
      StepShort(q, lo, d, n);
    }
    if q > hi {
      StepOver(q, hi, d, n);
    }
  }

  /** The stored average of at least one rating lies between 1.00 and 5.00. */
  lemma MeanBounds(ratings: seq<int>)
    requires |ratings| > 0 && AllRatings(ratings)
    ensures 100 <= MeanHundredths(ratings) <= 500
  {
    SumBounds(ratings);
    var n, d := 100 * Sum(ratings), |ratings|;
    var q := RoundHalfEven(n, d);
    RoundedWithin(n, d, q, 100, 500);
  }

  /** Appending a review of the doctor appends its rating; reviews of other
      doctors do not count. */
  lemma RatingsOfSnoc(reviews: seq<Review>, x: Review, doctor: nat)
    ensures RatingsOf(reviews + [x], doctor) == RatingsOf(reviews, doctor) + if x.doctor == doctor then [x.rating] else []
  {
    assert (reviews + [x])[..|reviews|] == reviews;
  }

  /** Every rating the table holds for the doctor came through the 1..5
      validator. */
  ghost predicate RatingsValid(reviews: seq<Review>) {
    forall i :: 0 <= i < |reviews| ==> 1 <= reviews[i].rating <= 5
  }

  lemma {:induction false} RatingsOfValid(reviews: seq<Review>, doctor: nat)
    requires RatingsValid(reviews)
    ensures AllRatings(RatingsOf(reviews, doctor))
  {
    if reviews != [] {
      var init := reviews[..|reviews| - 1];
      assert RatingsValid(init) by {
        assert forall i :: 0 <= i < |init| ==> init[i] == reviews[i];
      }
      RatingsOfValid(init, doctor);
      assert reviews == init + [reviews[|reviews| - 1]];
    }
  }

  /** A review with the same (doctor, patient, consultation date) exists. */
  predicate ReviewExists(reviews: seq<Review>, doctor: nat, patient: nat, date: int) {
    exists i :: 0 <= i < |reviews| && reviews[i].doctor == doctor && reviews[i].patient == patient
      && reviews[i].consultationDate == date
  }

  /** `add_review`. The serializer checks the rating's range and that a
      consultation date is given; it does not check the
      (doctor, patient, consultation_date) uniqueness, so a repeated review
      reaches the database and fails there. After an insert, the doctor's
      count and average are recomputed over all the doctor's reviews and
      written with `update_fields` (the age is not recomputed). */
  method AddReview(store: DoctorStore, doctor: nat, patient: nat, rating: Option<int>, date: Option<int>)
    returns (r: Response)
    requires RatingsValid(store.reviews)
    modifies store`reviews, store`doctors
    ensures RatingsValid(store.reviews)
    ensures doctor !in old(store.doctors) ==> r == NoSuchDoctor
    ensures doctor in old(store.doctors) && (rating.None? || !(1 <= rating.value <= 5) || date.None?) ==> r == Invalid
    ensures r.Created? <==>
      doctor in old(store.doctors) && rating.Some? && 1 <= rating.value <= 5 && date.Some?
      && !ReviewExists(old(store.reviews), doctor, patient, date.value)
    ensures r.IntegrityError? <==>
      doctor in old(store.doctors) && rating.Some? && 1 <= rating.value <= 5 && date.Some?
      && ReviewExists(old(store.reviews), doctor, patient, date.value)
    ensures !r.Created? ==> store.reviews == old(store.reviews) && store.doctors == old(store.doctors)
    ensures r.Created? ==>
      store.reviews == old(store.reviews) + [Review(doctor, patient, rating.value, date.value)]
      && store.doctors.Keys == old(store.doctors).Keys
      && (forall pk :: pk in old(store.doctors) && pk != doctor ==> store.doctors[pk] == old(store.doctors)[pk])
      && var ratings := RatingsOf(store.reviews, doctor);
         |ratings| > 0 && AllRatings(ratings)
         && store.doctors[doctor] == old(store.doctors)[doctor].(averageRating := MeanHundredths(ratings),
                                                                  totalReviews := |ratings|)
         && 100 <= store.doctors[doctor].averageRating <= 500
  {
    if doctor !in store.doctors {
      return NoSuchDoctor;
    }
    if rating.None? || !(1 <= rating.value <= 5) || date.None? {
      return Invalid;
    }
    if ReviewExists(store.reviews, doctor, patient, date.value) {
      return IntegrityError;
    }
    var x := Review(doctor, patient, rating.value, date.value);
    RatingsOfSnoc(store.reviews, x, doctor);
    store.reviews := store.reviews + [x];
    RatingsOfValid(store.reviews, doctor);
    var ratings := RatingsOf(store.reviews, doctor);
    MeanBounds(ratings);
    var d := store.doctors[doctor];
    store.doctors := store.doctors[doctor := d.(averageRating := MeanHundredths(ratings), totalReviews := |ratings|)];
    r := Created;
  }

  // ---------------------------------------------------------------------
  // set_availability

  /** The choices of `DoctorAvailability.day_of_week`. */
  const AvailabilityDays: set<string> := {"monday", "tuesday", "wednesday", "thursday", "friday", "saturday", "sunday"}

  /** The request fields of `set_availability`, already parsed; an absent
      field is None. */
  datatype AvailabilityRequest = AvailabilityRequest(day: Option<string>, start: Option<TimeOfDay>, end: Option<TimeOfDay>,
                                                     isAvailable: Option<bool>, consultationType: Option<string>,
                                                     maxPatients: Option<nat>)

  /** The choice fields the serializer checks in both branches: a given
      `consultation_type` must be one of the choices. */
  predicate ConsultationTypeValid(req: AvailabilityRequest) {
    req.consultationType.None? || req.consultationType.value in ConsultationTypes
  }

  /** A partial update: the given fields replace the stored ones. */
  function Merge(a: Availability, req: AvailabilityRequest): Availability {
    Availability(if req.end.Some? then req.end.value else a.endTime,
                 if req.isAvailable.Some? then req.isAvailable.value else a.isAvailable,
                 if req.consultationType.Some? then req.consultationType.value else a.consultationType,
                 if req.maxPatients.Some? then req.maxPatients.value else a.maxPatients)
  }

  /** A new entry: `is_available`, `consultation_type` and `max_patients`
      default to true, "both" and 20. */
  function Fresh(req: AvailabilityRequest): Availability
    requires req.end.Some?
  {
    Availability(req.end.value,
                 if req.isAvailable.Some? then req.isAvailable.value else true,
                 if req.consultationType.Some? then req.consultationType.value else "both",
                 if req.maxPatients.Some? then req.maxPatients.value else 20)
  }

  /** `set_availability`: an upsert on (doctor, day, start). An entry with
      that key is updated with the given fields; otherwise a new one needs a
      valid day, a start and an end. In both branches a `consultation_type`
      outside its choices is refused. Both succeed with 201. */
  method SetAvailability(store: DoctorStore, doctor: nat, req: AvailabilityRequest) returns (r: Response)
    modifies store`availability
    ensures doctor !in store.doctors ==> r == NoSuchDoctor && store.availability == old(store.availability)
    ensures doctor in store.doctors && req.day.Some? && req.day.value !in AvailabilityDays ==> r == Invalid
    ensures doctor in store.doctors && !ConsultationTypeValid(req) ==> r == Invalid
    ensures r.Created? <==>
      doctor in store.doctors && req.day.Some? && req.day.value in AvailabilityDays && req.start.Some?
      && ConsultationTypeValid(req)
      && ((doctor, req.day.value, req.start.value) in old(store.availability) || req.end.Some?)
    ensures !r.Created? ==> store.availability == old(store.availability)
    ensures r.Created? ==>
      var key := (doctor, req.day.value, req.start.value);
      store.availability == old(store.availability)[key :=
        if key in old(store.availability) then Merge(old(store.availability)[key], req) else Fresh(req)]
    ensures (forall k :: k in old(store.availability) ==> old(store.availability)[k].consultationType in ConsultationTypes) ==>
      forall k :: k in store.availability ==> store.availability[k].consultationType in ConsultationTypes
  {
    if doctor !in store.doctors {
      return NoSuchDoctor;
    }
    if req.day.Some? && req.start.Some? && (doctor, req.day.value, req.start.value) in store.availability {
      var key := (doctor, req.day.value, req.start.value);
      if req.day.value !in AvailabilityDays || !ConsultationTypeValid(req) {
        return Invalid;
      }
      store.availability := store.availability[key := Merge(store.availability[key], req)];
      return Created;
    }
    if req.day.None? || req.day.value !in AvailabilityDays || req.start.None? || req.end.None? || !ConsultationTypeValid(req) {
      return Invalid;
    }
    store.availability := store.availability[(doctor, req.day.value, req.start.value) := Fresh(req)];
    r := Created;
  }

  /** An upsert adds at most one entry, and one exactly when the key was new:
      a doctor never gets two entries for the same day and start. */
  lemma UpsertGrowsByAtMostOne(rows: map<(nat, string, TimeOfDay), Availability>, key: (nat, string, TimeOfDay), v: Availability)
    ensures key in rows ==> |rows[key := v]| == |rows|
    ensures key !in rows ==> |rows[key := v]| == |rows| + 1
  {
  }
}
