/** The doctor profile and its related tables: specialties (with the
    per-doctor link rows that carry `is_primary`), qualifications, work
    experience, the weekly availability schedule and reviews. */
module DoctorModels {
  import opened Common
  import opened Calendar

  /** The columns of a doctor profile the model uses. `averageRating` is in
      hundredths (the column is a decimal with two places). */
  datatype Doctor = Doctor(
    user: nat,
    dateOfBirth: Date,
    age: nat,
    licenseNumber: string,
    licenseExpiry: Date,
    averageRating: nat,
    totalReviews: nat)

  datatype Specialty = Specialty(name: string, isActive: bool)

  /** A `DoctorSpecialty` row; its key is the (doctor, specialty) pair. */
  datatype SpecialtyLink = SpecialtyLink(isPrimary: bool, yearsOfExperience: nat)

  /** A `DoctorQualification` row. */
  datatype QualificationLink = QualificationLink(doctor: nat, qualification: nat, institution: string,
                                                 university: string, yearStarted: nat, yearCompleted: nat)

  /** A `DoctorExperience` row; a current position has no end date. */
  datatype Experience = Experience(start: Date, end: Option<Date>)

  /** A `DoctorAvailability` row; its key is (doctor, day name, start time). */
  datatype Availability = Availability(endTime: TimeOfDay, isAvailable: bool, consultationType: string, maxPatients: nat)

  /** The choices of `consultation_type` (`Doctor.CONSULTATION_TYPES`). */
  const ConsultationTypes: set<string> := {"online", "offline", "both"}

  datatype Review = Review(doctor: nat, patient: nat, rating: int, consultationDate: int)

  // ---------------------------------------------------------------------
  // Doctor.save and the properties

  /** `Doctor.save`: the age is recomputed from the date of birth (a required
      column, so always present) on every save. The age column is a
      `PositiveIntegerField`, whose CHECK constraint refuses a negative age: a
      date of birth after today makes the write fail (None). */
  function SaveDoctor(d: Doctor, today: Date): (r: Option<Doctor>)
    ensures r.None? <==> Before(today, d.dateOfBirth)
    ensures r.Some? ==>
      !Before(today, Anniversary(d.dateOfBirth, r.value.age)) && Before(today, Anniversary(d.dateOfBirth, r.value.age + 1))
    ensures r.Some? ==> r.value.(age := d.age) == d
  {
    var age := AgeOn(d.dateOfBirth, today);
    AgeNonNegative(d.dateOfBirth, today);
    if age < 0 then None else Some(d.(age := age))
  }

  /** `is_license_valid`: the licence expires strictly after today. */
  predicate IsLicenseValid(d: Doctor, today: Date) {
    Before(today, d.licenseExpiry)
  }

  /** A licence is not valid on its expiry date, nor on any later day. */
  lemma LicenseExpires(d: Doctor, today: Date, later: Date)
    requires !Before(later, today)
    ensures today == d.licenseExpiry ==> !IsLicenseValid(d, today)
    ensures !IsLicenseValid(d, today) ==> !IsLicenseValid(d, later)
  {
  }

  /** `DoctorExperience.duration_months`, with a missing end date read as today. */
  function DurationMonths(e: Experience, today: Date): (months: int)
    ensures e.end.None? ==> months == MonthsBetween(e.start, today)
    ensures e.end.Some? ==> months == MonthsBetween(e.start, e.end.value)
  {
    MonthsBetween(e.start, if e.end.Some? then e.end.value else today)
  }

  /** Within the starting month the duration is 0, a current position gains
      twelve months a year, and a finished one does not change with the clock. */
  lemma DurationMonthsGrowth(e: Experience, today: Date, later: Date)
    ensures e.end.None? && today.year == e.start.year && today.month == e.start.month ==> DurationMonths(e, today) == 0
    ensures e.end.None? ==>
      DurationMonths(e, Date(today.year + 1, today.month, today.day)) == DurationMonths(e, today) + 12
    ensures e.end.Some? ==> DurationMonths(e, later) == DurationMonths(e, today)
  {
  }

  /** The names of the active specialties, in the given order. */
  function ActiveNames(specs: seq<Specialty>): (names: seq<string>)
    ensures |names| <= |specs|
    ensures forall n :: n in names <==> exists i :: 0 <= i < |specs| && specs[i].isActive && specs[i].name == n
  {
    if specs == [] then []
    else
      var init := specs[..|specs| - 1];
      var last := specs[|specs| - 1];
      assert forall i :: 0 <= i < |init| ==> init[i] == specs[i];
      ActiveNames(init) + (if last.isActive then [last.name] else [])
  }

  /** `all_specialties`: the names of the doctor's active specialties, in the
      table's order (by name), joined with ", ". */
  function AllSpecialties(specs: seq<Specialty>): string {
    Join(", ", ActiveNames(specs))
  }

  /** No active specialty gives the empty string; a single one gives its name. */
  lemma AllSpecialtiesShape(specs: seq<Specialty>)
    ensures (forall i :: 0 <= i < |specs| ==> !specs[i].isActive) ==> AllSpecialties(specs) == ""
    ensures |ActiveNames(specs)| == 1 ==> AllSpecialties(specs) == ActiveNames(specs)[0]
  {
    if forall i :: 0 <= i < |specs| ==> !specs[i].isActive {
      if ActiveNames(specs) != [] {
        assert ActiveNames(specs)[0] in ActiveNames(specs);
      }
    }
  }

  /** A qualification row as `highest_qualification` reads it: its year and
      whether the qualification itself is active. */
  datatype RankedQualification = RankedQualification(qualification: nat, yearCompleted: nat, active: bool)

  /** `highest_qualification`: an active qualification with the greatest
      year of completion (the first such row on a tie), or None. */
  function HighestQualification(quals: seq<RankedQualification>): (r: Option<RankedQualification>)
    ensures r.None? <==> forall i :: 0 <= i < |quals| ==> !quals[i].active
    ensures r.Some? ==> r.value in quals && r.value.active
    ensures r.Some? ==> forall i :: 0 <= i < |quals| && quals[i].active ==> quals[i].yearCompleted <= r.value.yearCompleted
  {
    if quals == [] then None
    else
      var init := quals[..|quals| - 1];
      var last := quals[|quals| - 1];
      var best := HighestQualification(init);
      assert forall i :: 0 <= i < |init| ==> init[i] == quals[i];
      if !last.active then best
      else if best.None? || best.value.yearCompleted < last.yearCompleted then Some(last)
      else best
  }

  // ---------------------------------------------------------------------
  // The "one primary specialty" invariant

  /** No doctor holds two primary specialties. */
  ghost predicate AtMostOnePrimary(links: map<(nat, nat), SpecialtyLink>) {
    forall d: nat, s1: nat, s2: nat ::
      (d, s1) in links && (d, s2) in links && links[(d, s1)].isPrimary && links[(d, s2)].isPrimary ==> s1 == s2
  }

  /** The specialties a doctor holds as primary. */
  function PrimariesOf(links: map<(nat, nat), SpecialtyLink>, doctor: nat): set<nat> {
    set k | k in links && k.0 == doctor && links[k].isPrimary :: k.1
  }

  /** The invariant says exactly that every doctor has at most one primary. */
  lemma {:induction false} AtMostOnePrimaryIff(links: map<(nat, nat), SpecialtyLink>)
    ensures AtMostOnePrimary(links) <==> forall d: nat :: |PrimariesOf(links, d)| <= 1
  {
    if AtMostOnePrimary(links) {
      forall d: nat
        ensures |PrimariesOf(links, d)| <= 1
      {
        var p := PrimariesOf(links, d);
        if p != {} {
          var s :| s in p;
          assert p == {s};
        }
      }
    } else {
      var d: nat, s1: nat, s2: nat :| (d, s1) in links && (d, s2) in links && links[(d, s1)].isPrimary
                                       && links[(d, s2)].isPrimary && s1 != s2;
      var p := PrimariesOf(links, d);
      assert s1 in p && s2 in p;
      assert {s1, s2} <= p;
      SubsetSize({s1, s2}, p);
    }
  }

  // ---------------------------------------------------------------------
  // The tables

  /** The doctor tables. `users` are the existing user accounts. */
  class DoctorStore {
    var users: set<nat>
    var doctors: map<nat, Doctor>
    var specialties: map<nat, Specialty>
    var links: map<(nat, nat), SpecialtyLink>
    var qualifications: set<nat>
    var qualificationLinks: seq<QualificationLink>
    var availability: map<(nat, string, TimeOfDay), Availability>
    var reviews: seq<Review>
    var nextPk: nat

    /** Every link belongs to an existing doctor and specialty, no doctor
        has two primaries, and the profile key counter is ahead of every key. */
    ghost predicate Valid()
      reads this
    {
      (forall k :: k in links ==> k.0 in doctors && k.1 in specialties)
      && AtMostOnePrimary(links)
      && (forall pk :: pk in doctors ==> pk < nextPk)
    }

    constructor()
      ensures Valid()
      ensures users == {} && doctors == map[] && specialties == map[] && links == map[]
      ensures qualifications == {} && qualificationLinks == [] && availability == map[] && reviews == []
      ensures nextPk == 1
    {
      users := {};
      doctors := map[];
      specialties := map[];
      links := map[];
      qualifications := {};
      qualificationLinks := [];
      availability := map[];
      reviews := [];
      nextPk := 1;
    }
  }
}
