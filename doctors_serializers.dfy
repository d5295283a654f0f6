/** `DoctorCreateUpdateSerializer`: the two field validators, and `create` and
    `update`, which write the profile row and then the doctor's specialty
    links one list entry at a time (and, in `create`, the qualification
    rows). Nothing runs in a transaction: when a later row fails, the rows
    written before it stay. */
module DoctorSerializers {
  import opened Common
  import opened Calendar
  import opened DoctorModels

  datatype Validation = Accepted | Rejected(message: string)

  // ---------------------------------------------------------------------
  // The validators

  /** `validate_user_id`: the user must exist and must not have a doctor
      profile yet. */
  function ValidateUserId(users: set<nat>, doctors: map<nat, Doctor>, value: nat): (r: Validation)
    ensures r == Accepted <==> value in users && forall pk :: pk in doctors ==> doctors[pk].user != value
    ensures value !in users ==> r == Rejected("User not found")
  {
    if value !in users then Rejected("User not found")
    else if exists pk :: pk in doctors && doctors[pk].user == value then Rejected("User already has a doctor profile")
    else Accepted
  }

  /** Another doctor than the one being updated (None on create) holds the
      number. */
  predicate LicenseTaken(doctors: map<nat, Doctor>, instance: Option<nat>, value: string) {
    exists pk :: pk in doctors && doctors[pk].licenseNumber == value && instance != Some(pk)
  }

  /** The message of the `UniqueValidator` the serializer generates for the
      unique column `medical_license_number` (Django's unique message, with
      the model's verbose name "doctor"). */
  const LicenseUniqueMessage := "doctor with this medical license number already exists."

  /** `validate_medical_license_number` on its own. */
  function LicenseMethod(doctors: map<nat, Doctor>, instance: Option<nat>, value: string): Validation {
    if LicenseTaken(doctors, instance, value) then Rejected("Medical license number already exists") else Accepted
  }

  /** The validation of the `medical_license_number` field: the generated
      `UniqueValidator`, which also leaves out the instance being updated,
      runs as part of the field; `validate_medical_license_number` runs only
      on a value the field accepted. */
  function ValidateLicenseNumber(doctors: map<nat, Doctor>, instance: Option<nat>, value: string): (r: Validation)
    ensures r == Accepted <==>
      forall pk :: pk in doctors && doctors[pk].licenseNumber == value ==> instance == Some(pk)
  {
    if LicenseTaken(doctors, instance, value) then Rejected(LicenseUniqueMessage)
    else LicenseMethod(doctors, instance, value)
  }

  /** The custom validator tests what the unique validator already refused,
      so a taken number is always reported with the unique message and
      "Medical license number already exists" is never produced. */
  lemma LicenseMessageIsUnique(doctors: map<nat, Doctor>, instance: Option<nat>, value: string)
    ensures ValidateLicenseNumber(doctors, instance, value) != Accepted ==>
      ValidateLicenseNumber(doctors, instance, value) == Rejected(LicenseUniqueMessage)
    ensures ValidateLicenseNumber(doctors, instance, value) != Rejected("Medical license number already exists")
    ensures LicenseMethod(doctors, instance, value) == Rejected("Medical license number already exists") ==>
      ValidateLicenseNumber(doctors, instance, value) == Rejected(LicenseUniqueMessage)
  {
    assert |LicenseUniqueMessage| != |"Medical license number already exists"|;
  }

  /** Re-submitting a doctor's own number on an update is accepted, and a
      number no doctor holds is accepted on a create. */
  lemma LicenseOwnNumber(doctors: map<nat, Doctor>, pk: nat, value: string)
    requires pk in doctors && doctors[pk].licenseNumber == value
    requires forall q :: q in doctors && q != pk ==> doctors[q].licenseNumber != value
    ensures ValidateLicenseNumber(doctors, Some(pk), value) == Accepted
    ensures ValidateLicenseNumber(doctors, None, value) != Accepted
  {
  }

  // ---------------------------------------------------------------------
  // The specialty loops

  /** Which new link is primary: in `create`, the first one written (the
      doctor has no link yet); in `update`, the one at list index 0. */
  datatype PrimaryRule = FirstAdded | FirstListed

  /** The links after a run of the loop, and whether a create failed on the
      (doctor, specialty) uniqueness and ended the request. */
  datatype LinkRun = LinkRun(links: map<(nat, nat), SpecialtyLink>, failed: bool)

  /** The doctor has some link. */
  predicate HasLinks(links: map<(nat, nat), SpecialtyLink>, doctor: nat) {
    exists k :: k in links && k.0 == doctor
  }

  /** The specialties the doctor is linked to. */
  function SpecialtiesOf(links: map<(nat, nat), SpecialtyLink>, doctor: nat): set<nat> {
    set k | k in links && k.0 == doctor :: k.1
  }

  /** The loop of `create` or `update` over the requested ids: an unknown id
      is skipped, a known one gets a new link, a repeated one fails. */
  function AddLinks(links: map<(nat, nat), SpecialtyLink>, doctor: nat, ids: seq<nat>, catalog: set<nat>, rule: PrimaryRule)
    : LinkRun
  {
    if ids == [] then LinkRun(links, false)
    else
      var run := AddLinks(links, doctor, ids[..|ids| - 1], catalog, rule);
      var id := ids[|ids| - 1];
      if run.failed || id !in catalog then run
      else if (doctor, id) in run.links then LinkRun(run.links, true)
      else
        LinkRun(run.links[(doctor, id) := SpecialtyLink(NewIsPrimary(run.links, doctor, |ids| - 1, rule), 0)], false)
  }

  /** Whether the link written for list position `position` is primary. */
  function NewIsPrimary(links: map<(nat, nat), SpecialtyLink>, doctor: nat, position: nat, rule: PrimaryRule): bool {
    match rule
    case FirstAdded => !HasLinks(links, doctor)
    case FirstListed => position == 0
  }

  /** The requested ids that name an existing specialty, in list order. */
  function KnownIds(ids: seq<nat>, catalog: set<nat>): seq<nat> {
    if ids == [] then []
    else KnownIds(ids[..|ids| - 1], catalog) + if ids[|ids| - 1] in catalog then [ids[|ids| - 1]] else []
  }

  /** The primaries a successful loop leaves the doctor with. */
  function ExpectedPrimaries(ids: seq<nat>, catalog: set<nat>, rule: PrimaryRule): set<nat> {
    match rule
    case FirstAdded => var known := KnownIds(ids, catalog); if known == [] then {} else {known[0]}
    case FirstListed => if ids != [] && ids[0] in catalog then {ids[0]} else {}
  }

  lemma HasLinksIff(links: map<(nat, nat), SpecialtyLink>, doctor: nat)
    ensures HasLinks(links, doctor) <==> SpecialtiesOf(links, doctor) != {}
  {
    if HasLinks(links, doctor) {
      var k :| k in links && k.0 == doctor;
      assert k.1 in SpecialtiesOf(links, doctor);
    }
  }

  /** One new link of the doctor adds its specialty, and its primary flag. */
  lemma AddOne(links: map<(nat, nat), SpecialtyLink>, doctor: nat, id: nat, link: SpecialtyLink)
    requires (doctor, id) !in links
    ensures SpecialtiesOf(links[(doctor, id) := link], doctor) == SpecialtiesOf(links, doctor) + {id}
    ensures PrimariesOf(links[(doctor, id) := link], doctor) == PrimariesOf(links, doctor) + if link.isPrimary then {id} else {}
    ensures forall d :: d != doctor ==> PrimariesOf(links[(doctor, id) := link], d) == PrimariesOf(links, d)
  {
    var m := links[(doctor, id) := link];
    assert (doctor, id) in m;
    forall d | d != doctor
      ensures PrimariesOf(m, d) == PrimariesOf(links, d)
    {
      assert forall k :: k in links && k.0 == d ==> m[k] == links[k];
    }
  }

  lemma KnownIdsSnoc(ids: seq<nat>, id: nat, catalog: set<nat>)
    ensures KnownIds(ids + [id], catalog) == KnownIds(ids, catalog) + if id in catalog then [id] else []
  {
    assert (ids + [id])[..|ids|] == ids;
  }

  /** A repeat in the prefix stays a repeat, and a new element repeats
      exactly when it occurred before. */
  lemma NoRepeatsSnoc(s: seq<nat>, x: nat)
    ensures NoRepeats(s + [x]) <==> NoRepeats(s) && x !in s
  {
    var t := s + [x];
    assert forall i :: 0 <= i < |s| ==> t[i] == s[i];
    assert t[|s|] == x;
    if x in s {
      var i :| 0 <= i < |s| && s[i] == x;
      assert t[i] == t[|s|];
    }
  }

  /** What one loop run leaves, from a doctor with no link: it fails exactly
      when a known id repeats; otherwise the doctor is linked to exactly the
      known ids, with the primaries the rule gives; the other doctors'
      primaries do not change. */
  lemma {:induction false} AddLinksResult(links: map<(nat, nat), SpecialtyLink>, doctor: nat, ids: seq<nat>,
                                          catalog: set<nat>, rule: PrimaryRule)
    requires SpecialtiesOf(links, doctor) == {}
    ensures var run := AddLinks(links, doctor, ids, catalog, rule);
      (!run.failed <==> NoRepeats(KnownIds(ids, catalog)))
      && (!run.failed ==> SpecialtiesOf(run.links, doctor) == Elements(KnownIds(ids, catalog)))
      && (!run.failed ==> PrimariesOf(run.links, doctor) == ExpectedPrimaries(ids, catalog, rule))
      && |PrimariesOf(run.links, doctor)| <= 1
      && forall d :: d != doctor ==> PrimariesOf(run.links, d) == PrimariesOf(links, d)
  {
    if ids == [] {
      assert PrimariesOf(links, doctor) == {} by {
        assert forall s :: s in PrimariesOf(links, doctor) ==> s in SpecialtiesOf(links, doctor);
      }
    } else {
      var init, id := ids[..|ids| - 1], ids[|ids| - 1];
      assert ids == init + [id];
      AddLinksResult(links, doctor, init, catalog, rule);
      AddLinksStep(links, doctor, init, id, catalog, rule);
    }
  }

  /** The inductive step of `AddLinksResult`: one more id. */
  lemma AddLinksStep(links: map<(nat, nat), SpecialtyLink>, doctor: nat, init: seq<nat>, id: nat,
                     catalog: set<nat>, rule: PrimaryRule)
    requires var run := AddLinks(links, doctor, init, catalog, rule);
      (!run.failed <==> NoRepeats(KnownIds(init, catalog)))
      && (!run.failed ==> SpecialtiesOf(run.links, doctor) == Elements(KnownIds(init, catalog)))
      && (!run.failed ==> PrimariesOf(run.links, doctor) == ExpectedPrimaries(init, catalog, rule))
      && |PrimariesOf(run.links, doctor)| <= 1
      && forall d :: d != doctor ==> PrimariesOf(run.links, d) == PrimariesOf(links, d)
    ensures var run := AddLinks(links, doctor, init + [id], catalog, rule);
      (!run.failed <==> NoRepeats(KnownIds(init + [id], catalog)))
      && (!run.failed ==> SpecialtiesOf(run.links, doctor) == Elements(KnownIds(init + [id], catalog)))
      && (!run.failed ==> PrimariesOf(run.links, doctor) == ExpectedPrimaries(init + [id], catalog, rule))
      && |PrimariesOf(run.links, doctor)| <= 1
      && forall d :: d != doctor ==> PrimariesOf(run.links, d) == PrimariesOf(links, d)
  {
    var ids := init + [id];
    assert ids[..|ids| - 1] == init && ids[|ids| - 1] == id;
    KnownIdsSnoc(init, id, catalog);
    var run := AddLinks(links, doctor, init, catalog, rule);
    var known := KnownIds(init, catalog);
    if id !in catalog {
      assert KnownIds(ids, catalog) == known by {
        assert known + [] == known;
      }
    } else {
      NoRepeatsSnoc(known, id);
      ElementsSnoc(known, id);
      assert id in known <==> id in Elements(known);
    }
    if !run.failed && id in catalog {
      if (doctor, id) in run.links {
        assert id in SpecialtiesOf(run.links, doctor);
      } else {
        AddStep(run, doctor, init, id, catalog, rule);
      }
    }
  }

  /** The step of `AddLinksResult` that writes a new link. */
  lemma AddStep(run: LinkRun, doctor: nat, init: seq<nat>, id: nat, catalog: set<nat>, rule: PrimaryRule)
    requires !run.failed && id in catalog && (doctor, id) !in run.links
    requires SpecialtiesOf(run.links, doctor) == Elements(KnownIds(init, catalog))
    requires PrimariesOf(run.links, doctor) == ExpectedPrimaries(init, catalog, rule)
    ensures var m := run.links[(doctor, id) := SpecialtyLink(NewIsPrimary(run.links, doctor, |init|, rule), 0)];
      SpecialtiesOf(m, doctor) == Elements(KnownIds(init + [id], catalog))
      && PrimariesOf(m, doctor) == ExpectedPrimaries(init + [id], catalog, rule)
      && forall d :: d != doctor ==> PrimariesOf(m, d) == PrimariesOf(run.links, d)
  {
    var known := KnownIds(init, catalog);
    var primary := NewIsPrimary(run.links, doctor, |init|, rule);
    AddOne(run.links, doctor, id, SpecialtyLink(primary, 0));
    KnownIdsSnoc(init, id, catalog);
    ElementsSnoc(known, id);
    HasLinksIff(run.links, doctor);
    EmptyElements(known);
    ExpectedStep(init, id, catalog, rule);
  }

  lemma EmptyElements<T>(s: seq<T>)
    ensures s == [] <==> Elements(s) == {}
  {
    if s != [] {
      assert s[0] in Elements(s);
    }
  }

  /** The primaries a rule expects after one more known id. */
  lemma ExpectedStep(init: seq<nat>, id: nat, catalog: set<nat>, rule: PrimaryRule)
    requires id in catalog
    ensures var first := match rule
          case FirstAdded => KnownIds(init, catalog) == []
          case FirstListed => init == [];
      ExpectedPrimaries(init + [id], catalog, rule) == ExpectedPrimaries(init, catalog, rule) + if first then {id} else {}
  {
    KnownIdsSnoc(init, id, catalog);
    if init != [] {
      assert (init + [id])[0] == init[0];
    }
  }

  /** The loop over the list, stopping at the first failing create. */
  method AddLinksLoop(store: DoctorStore, doctor: nat, ids: seq<nat>, rule: PrimaryRule) returns (failed: bool)
    modifies store`links
    ensures LinkRun(store.links, failed) == AddLinks(old(store.links), doctor, ids, store.specialties.Keys, rule)
  {
    var catalog := store.specialties.Keys;
    for i := 0 to |ids|
      invariant AddLinks(old(store.links), doctor, ids[..i], catalog, rule) == LinkRun(store.links, false)
    {
      var id := ids[i];
      assert ids[..i + 1][..i] == ids[..i];
      if id in catalog {
        if (doctor, id) in store.links {
          FailedStays(old(store.links), doctor, ids, i + 1, catalog, rule);
          assert ids[..|ids|] == ids;
          return true;
        }
        store.links := store.links[(doctor, id) := SpecialtyLink(NewIsPrimary(store.links, doctor, i, rule), 0)];
      }
    }
    assert ids[..|ids|] == ids;
    failed := false;
  }

  /** Once a create has failed, the rest of the list is not looked at. */
  lemma {:induction false} FailedStays(links: map<(nat, nat), SpecialtyLink>, doctor: nat, ids: seq<nat>, j: nat,
                                       catalog: set<nat>, rule: PrimaryRule)
    decreases |ids|
    requires j <= |ids| && AddLinks(links, doctor, ids[..j], catalog, rule).failed
    ensures AddLinks(links, doctor, ids, catalog, rule) == AddLinks(links, doctor, ids[..j], catalog, rule)
  {
    if j < |ids| {
      var init := ids[..|ids| - 1];
      assert init[..j] == ids[..j];
      FailedStays(links, doctor, init, j, catalog, rule);
    } else {
      assert ids[..j] == ids;
    }
  }

  // ---------------------------------------------------------------------
  // The qualification loop of create

  /** One entry of the `qualifications` list; an absent key is None. The two
      names carry a present key's value, a JSON null being None. */
  datatype QualificationEntry = QualificationEntry(qualificationId: Option<nat>, institution: Option<Option<string>>,
                                                   university: Option<Option<string>>, yearStarted: Option<nat>,
                                                   yearCompleted: Option<nat>)

  /** `qual_data.get(key, '')`: "" for an absent key, otherwise the value,
      None (NULL) for a JSON null. */
  function TextOrEmpty(v: Option<Option<string>>): Option<string> {
    if v.Some? then v.value else Some("")
  }

  datatype QualificationRun = QualificationRun(rows: seq<QualificationLink>, failed: bool)

  /** A row of the doctor with that qualification and institution exists. */
  predicate QualificationExists(rows: seq<QualificationLink>, doctor: nat, q: nat, institution: string) {
    exists i :: 0 <= i < |rows| && rows[i].doctor == doctor && rows[i].qualification == q && rows[i].institution == institution
  }

  /** The qualification loop: an entry without `qualification_id` (KeyError)
      or with an unknown one is skipped; the institution and university
      default to ""; a missing year or a null name reaches the NOT NULL
      columns, and a repeated (doctor, qualification, institution) the unique
      constraint, and either ends the request. */
  function AddQualifications(rows: seq<QualificationLink>, doctor: nat, entries: seq<QualificationEntry>, catalog: set<nat>)
    : QualificationRun
  {
    if entries == [] then QualificationRun(rows, false)
    else
      var run := AddQualifications(rows, doctor, entries[..|entries| - 1], catalog);
      var e := entries[|entries| - 1];
      if run.failed || e.qualificationId.None? || e.qualificationId.value !in catalog then run
      else
        var institution, university := TextOrEmpty(e.institution), TextOrEmpty(e.university);
        if e.yearStarted.None? || e.yearCompleted.None? || institution.None? || university.None?
           || QualificationExists(run.rows, doctor, e.qualificationId.value, institution.value)
        then QualificationRun(run.rows, true)
        else QualificationRun(run.rows + [QualificationLink(doctor, e.qualificationId.value, institution.value,
                                                               university.value, e.yearStarted.value,
                                                               e.yearCompleted.value)], false)
  }

  /** The loop only appends rows, each for the doctor and a known
      qualification. */
  lemma {:induction false} AddQualificationsAppends(rows: seq<QualificationLink>, doctor: nat, entries: seq<QualificationEntry>,
                                                    catalog: set<nat>)
    ensures var run := AddQualifications(rows, doctor, entries, catalog);
      |rows| <= |run.rows| && run.rows[..|rows|] == rows
      && forall i :: |rows| <= i < |run.rows| ==> run.rows[i].doctor == doctor && run.rows[i].qualification in catalog
  {
    if entries != [] {
      AddQualificationsAppends(rows, doctor, entries[..|entries| - 1], catalog);
    }
  }

  /** An entry with a known qualification and no year, or a null
      institution, ends the request. */
  lemma MissingYearFails(rows: seq<QualificationLink>, doctor: nat, entries: seq<QualificationEntry>,
                         e: QualificationEntry, catalog: set<nat>)
    requires e.qualificationId.Some? && e.qualificationId.value in catalog
    requires e.yearCompleted.None? || e.institution == Some(None)
    ensures AddQualifications(rows, doctor, entries + [e], catalog).failed
  {
    assert (entries + [e])[..|entries|] == entries;
  }

  method AddQualificationsLoop(store: DoctorStore, doctor: nat, entries: seq<QualificationEntry>) returns (failed: bool)
    modifies store`qualificationLinks
    ensures QualificationRun(store.qualificationLinks, failed)
            == AddQualifications(old(store.qualificationLinks), doctor, entries, store.qualifications)
  {
    for i := 0 to |entries|
      invariant AddQualifications(old(store.qualificationLinks), doctor, entries[..i], store.qualifications)
                == QualificationRun(store.qualificationLinks, false)
    {
      var e := entries[i];
      assert entries[..i + 1][..i] == entries[..i];
      if e.qualificationId.Some? && e.qualificationId.value in store.qualifications {
        var institution, university := TextOrEmpty(e.institution), TextOrEmpty(e.university);
        if e.yearStarted.None? || e.yearCompleted.None? || institution.None? || university.None?
           || QualificationExists(store.qualificationLinks, doctor, e.qualificationId.value, institution.value) {
          QualificationsFailedStay(old(store.qualificationLinks), doctor, entries, i + 1, store.qualifications);
          assert entries[..|entries|] == entries;
          return true;
        }
        store.qualificationLinks := store.qualificationLinks
          + [QualificationLink(doctor, e.qualificationId.value, institution.value, university.value,
                               e.yearStarted.value, e.yearCompleted.value)];
      }
    }
    assert entries[..|entries|] == entries;
    failed := false;
  }

  lemma {:induction false} QualificationsFailedStay(rows: seq<QualificationLink>, doctor: nat, entries: seq<QualificationEntry>,
                                                    j: nat, catalog: set<nat>)
    decreases |entries|
    requires j <= |entries| && AddQualifications(rows, doctor, entries[..j], catalog).failed
    ensures AddQualifications(rows, doctor, entries, catalog) == AddQualifications(rows, doctor, entries[..j], catalog)
  {
    if j < |entries| {
      var init := entries[..|entries| - 1];
      assert init[..j] == entries[..j];
      QualificationsFailedStay(rows, doctor, init, j, catalog);
    } else {
      assert entries[..j] == entries;
    }
  }

  // ---------------------------------------------------------------------
  // create and update

  datatype Outcome = DoctorSaved(pk: nat) | IntegrityError(pk: nat)

  /** Every doctor's links stay within one primary when only `doctor`'s
      change and the doctor keeps one primary at most. */
  lemma OnePrimaryFromParts(before: map<(nat, nat), SpecialtyLink>, after: map<(nat, nat), SpecialtyLink>, doctor: nat)
    requires AtMostOnePrimary(before)
    requires |PrimariesOf(after, doctor)| <= 1
    requires forall d :: d != doctor ==> PrimariesOf(after, d) == PrimariesOf(before, d)
    ensures AtMostOnePrimary(after)
  {
    AtMostOnePrimaryIff(before);
    forall d: nat
      ensures |PrimariesOf(after, d)| <= 1
    {
      if d != doctor {
        assert PrimariesOf(after, d) == PrimariesOf(before, d);
      }
    }
    AtMostOnePrimaryIff(after);
  }

  /** `create`: the profile row (its `save` computes the age), then the
      specialty links, the first one written being primary, then the
      qualification rows. A failing row ends the request with the rows
      before it written; a profile whose date of birth is after today fails
      the age column's CHECK constraint, and nothing is written. */
  method CreateDoctor(store: DoctorStore, profile: Doctor, specialtyIds: seq<nat>, entries: seq<QualificationEntry>,
                      today: Date) returns (r: Outcome)
    requires store.Valid()
    modifies store`doctors, store`nextPk, store`links, store`qualificationLinks
    ensures store.Valid()
    ensures r.pk == old(store.nextPk)
    ensures Before(today, profile.dateOfBirth) ==>
      r.IntegrityError? && store.doctors == old(store.doctors) && store.nextPk == old(store.nextPk)
      && store.links == old(store.links) && store.qualificationLinks == old(store.qualificationLinks)
    ensures !Before(today, profile.dateOfBirth) ==>
      store.nextPk == r.pk + 1 && store.doctors == old(store.doctors)[r.pk := SaveDoctor(profile, today).value]
      && var run := AddLinks(old(store.links), r.pk, specialtyIds, store.specialties.Keys, FirstAdded);
         store.links == run.links
         && (run.failed ==> r.IntegrityError? && store.qualificationLinks == old(store.qualificationLinks))
         && (!run.failed ==>
               var qrun := AddQualifications(old(store.qualificationLinks), r.pk, entries, store.qualifications);
               store.qualificationLinks == qrun.rows && (r.IntegrityError? <==> qrun.failed))
    ensures r.IntegrityError? <==> (Before(today, profile.dateOfBirth)
                                    || !NoRepeats(KnownIds(specialtyIds, store.specialties.Keys))
                                    || AddQualifications(old(store.qualificationLinks), r.pk, entries, store.qualifications).failed)
    ensures r.DoctorSaved? ==>
      SpecialtiesOf(store.links, r.pk) == Elements(KnownIds(specialtyIds, store.specialties.Keys))
      && PrimariesOf(store.links, r.pk) == ExpectedPrimaries(specialtyIds, store.specialties.Keys, FirstAdded)
  {
    var pk := store.nextPk;
    var saved := SaveDoctor(profile, today);
    if saved.None? {
      return IntegrityError(pk);
    }
    store.doctors := store.doctors[pk := saved.value];
    store.nextPk := pk + 1;
    assert SpecialtiesOf(store.links, pk) == {} by {
      assert forall k :: k in store.links ==> k.0 != pk;
    }
    AddLinksResult(store.links, pk, specialtyIds, store.specialties.Keys, FirstAdded);
    ghost var before := store.links;
    var failed := AddLinksLoop(store, pk, specialtyIds, FirstAdded);
    OnePrimaryFromParts(before, store.links, pk);
    AddLinksWithin(before, pk, specialtyIds, store.specialties.Keys, FirstAdded);
    if failed {
      return IntegrityError(pk);
    }
    failed := AddQualificationsLoop(store, pk, entries);
    r := if failed then IntegrityError(pk) else DoctorSaved(pk);
  }

  /** A loop run only adds links of the doctor to known specialties. */
  lemma {:induction false} AddLinksWithin(links: map<(nat, nat), SpecialtyLink>, doctor: nat, ids: seq<nat>,
                                          catalog: set<nat>, rule: PrimaryRule)
    ensures var run := AddLinks(links, doctor, ids, catalog, rule);
      forall k :: k in run.links ==> k in links || (k.0 == doctor && k.1 in catalog)
  {
    if ids != [] {
      AddLinksWithin(links, doctor, ids[..|ids| - 1], catalog, rule);
    }
  }

  /** The profile columns `update` may set that the model keeps; an absent
      one is None. `userId` is the validated `user_id`, which the `setattr`
      loop writes to the profile's user column. */
  datatype ProfileChanges = ProfileChanges(userId: Option<nat>, dateOfBirth: Option<Date>, licenseNumber: Option<string>,
                                           licenseExpiry: Option<Date>)

  /** The `setattr` loop: each given column replaces the stored one. */
  function ApplyChanges(d: Doctor, c: ProfileChanges): Doctor {
    d.(user := if c.userId.Some? then c.userId.value else d.user,
       dateOfBirth := if c.dateOfBirth.Some? then c.dateOfBirth.value else d.dateOfBirth,
       licenseNumber := if c.licenseNumber.Some? then c.licenseNumber.value else d.licenseNumber,
       licenseExpiry := if c.licenseExpiry.Some? then c.licenseExpiry.value else d.licenseExpiry)
  }

  /** The doctor's links removed: `instance.doctorspecialty_set.all().delete()`. */
  function WithoutLinksOf(links: map<(nat, nat), SpecialtyLink>, doctor: nat): (r: map<(nat, nat), SpecialtyLink>)
    ensures SpecialtiesOf(r, doctor) == {}
    ensures forall d :: d != doctor ==> PrimariesOf(r, d) == PrimariesOf(links, d)
  {
    var r := map k | k in links && k.0 != doctor :: links[k];
    assert forall d :: d != doctor ==> PrimariesOf(r, d) == PrimariesOf(links, d) by {
      forall d | d != doctor
        ensures PrimariesOf(r, d) == PrimariesOf(links, d)
      {
        assert forall k :: k in links && k.0 == d ==> k in r && r[k] == links[k];
      }
    }
    r
  }

  /** `update`: the given columns are set and the row saved (so the age is
      recomputed); with a specialty list, the doctor's links are replaced by
      one per known id, only list index 0 being primary. Without a list the
      links are kept. A date of birth after today fails the age column's
      CHECK constraint at the save, before the links are touched, and
      nothing changes. */
  method UpdateDoctor(store: DoctorStore, pk: nat, changes: ProfileChanges, specialtyIds: Option<seq<nat>>, today: Date)
    returns (r: Outcome)
    requires store.Valid() && pk in store.doctors
    modifies store`doctors, store`links
    ensures store.Valid() && r.pk == pk
    ensures var d := ApplyChanges(old(store.doctors)[pk], changes);
      (Before(today, d.dateOfBirth) ==>
         r.IntegrityError? && store.doctors == old(store.doctors) && store.links == old(store.links))
      && (!Before(today, d.dateOfBirth) ==> store.doctors == old(store.doctors)[pk := SaveDoctor(d, today).value])
    ensures !Before(today, ApplyChanges(old(store.doctors)[pk], changes).dateOfBirth) ==>
      (specialtyIds.None? ==> store.links == old(store.links) && r == DoctorSaved(pk))
      && (specialtyIds.Some? ==>
            var run := AddLinks(WithoutLinksOf(old(store.links), pk), pk, specialtyIds.value, store.specialties.Keys, FirstListed);
            store.links == run.links && (r.IntegrityError? <==> run.failed)
            && (r.IntegrityError? <==> !NoRepeats(KnownIds(specialtyIds.value, store.specialties.Keys))))
    ensures specialtyIds.Some? && r.DoctorSaved? ==>
      SpecialtiesOf(store.links, pk) == Elements(KnownIds(specialtyIds.value, store.specialties.Keys))
      && PrimariesOf(store.links, pk) == ExpectedPrimaries(specialtyIds.value, store.specialties.Keys, FirstListed)
  {
    var saved := SaveDoctor(ApplyChanges(store.doctors[pk], changes), today);
    if saved.None? {
      return IntegrityError(pk);
    }
    store.doctors := store.doctors[pk := saved.value];
    if specialtyIds.None? {
      return DoctorSaved(pk);
    }
    ghost var original := store.links;
    store.links := WithoutLinksOf(store.links, pk);
    AddLinksResult(store.links, pk, specialtyIds.value, store.specialties.Keys, FirstListed);
    AddLinksWithin(store.links, pk, specialtyIds.value, store.specialties.Keys, FirstListed);
    ghost var cleared := store.links;
    var failed := AddLinksLoop(store, pk, specialtyIds.value, FirstListed);
    OnePrimaryFromParts(original, store.links, pk);
    r := if failed then IntegrityError(pk) else DoctorSaved(pk);
  }

  /** On `update`, `validate_user_id` still refuses every user that has a
      profile, the doctor's own user included; a user it accepts has no
      profile, and the update moves the profile to that user, leaving it the
      only profile of the user. */
  lemma UpdateUserId(users: set<nat>, doctors: map<nat, Doctor>, pk: nat, c: ProfileChanges)
    requires pk in doctors && c.userId.Some?
    ensures doctors[pk].user in users ==>
      ValidateUserId(users, doctors, doctors[pk].user) == Rejected("User already has a doctor profile")
    ensures ValidateUserId(users, doctors, c.userId.value) == Accepted ==>
      c.userId.value != doctors[pk].user
      && ApplyChanges(doctors[pk], c).user == c.userId.value
      && forall q :: q in doctors && q != pk ==> doctors[q].user != c.userId.value
  {
  }

  /** With `update`, a list whose first id is unknown leaves the doctor
      without a primary, even when later ids are known. */
  lemma UpdateFirstUnknownNoPrimary(ids: seq<nat>, catalog: set<nat>)
    requires ids != [] && ids[0] !in catalog
    ensures ExpectedPrimaries(ids, catalog, FirstListed) == {}
  {
  }

  /** With `create`, at least one known id gives exactly one primary, the
      first known one. */
  lemma CreateOnePrimary(ids: seq<nat>, catalog: set<nat>)
    requires KnownIds(ids, catalog) != []
    ensures |ExpectedPrimaries(ids, catalog, FirstAdded)| == 1
  {
  }
}
