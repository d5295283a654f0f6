/** The patient record's derived fields: the generated patient id, the age,
    the joined name and address, and the insurance checks. */
module PatientModels {
  import opened Common
  import opened Calendar
  import opened SerialIds

  datatype Patient = Patient(
    patientId: string,
    firstName: string,
    middleName: Option<string>,
    lastName: string,
    dateOfBirth: Date,
    age: nat,
    addressLine1: string,
    addressLine2: Option<string>,
    city: string,
    state: string,
    pincode: string,
    insuranceExpiry: Option<Date>)

  // ---------------------------------------------------------------------
  // generate_patient_id

  /** The id prefix of a year: `f"PAT{current_year}"`. */
  function PatientPrefix(year: nat): string {
    "PAT" + Decimal(year)
  }

  /** `generate_patient_id`, with the serial rule corrected (see `SerialIds`):
      an id of the year's prefix that no patient holds yet. */
  function GeneratePatientId(ids: seq<string>, year: nat): (id: string)
    ensures StartsWith(id, PatientPrefix(year))
    ensures SerialOf(id, PatientPrefix(year)) == Some(MaxSerial(ids, PatientPrefix(year)) + 1)
    ensures id !in ids
  {
    GenerateId(ids, PatientPrefix(year))
  }

  /** `generate_patient_id` as the source writes it. */
  function GeneratePatientIdAsWritten(ids: seq<string>, year: nat): Option<string> {
    GenerateIdAsWritten(ids, PatientPrefix(year))
  }

  lemma Decimal2024()
    ensures Decimal(2024) == "2024"
  {
    assert Decimal(2) == "2";
    assert Decimal(20) == Decimal(2) + ['0'];
    assert Decimal(202) == Decimal(20) + ['2'];
  }

  /** The first patient registered in 2024 is "PAT20240001". */
  lemma FirstPatientId()
    ensures GeneratePatientIdAsWritten([], 2024) == Some("PAT20240001")
  {
    Decimal2024();
    assert PatientPrefix(2024) == "PAT2024";
    assert ZeroPad(1, 4) == "0001" by {
      assert Decimal(1) == "1";
      assert Zeros(3) == "000";
    }
    assert GreatestWithPrefix([], "PAT2024") == None;
    assert NextSerialAsWritten([], "PAT2024") == Some(1);
    assert GenerateIdAsWritten([], "PAT2024") == Some("PAT2024" + "0001");
    assert "PAT2024" + "0001" == "PAT20240001";
  }

  /** After "PAT20249999" the source hands out "PAT202410000" on every later
      registration of the year. */
  lemma PatientIdAsWrittenRepeats()
    ensures var ids := ["PAT20249999", "PAT202410000"];
            GeneratePatientIdAsWritten(ids, 2024) == Some("PAT202410000") && "PAT202410000" in ids
  {
    Decimal2024();
    var p := PatientPrefix(2024);
    assert p == "PAT2024";
    var ids := ["PAT20249999", "PAT202410000"];
    assert "PAT20249999" == "PAT2024" + "9999";
    assert "PAT202410000" == "PAT2024" + "10000";
    assert ids == [p + "9999", p + "10000"];
    AsWrittenRepeatsAfter9999(p);
  }

  // ---------------------------------------------------------------------
  // Patient.save

  /** `Patient.save`: a patient without an id gets a new one for the current
      year; the age is recomputed from the date of birth on every save. The
      clock's date is `today`; its year is the year of the id. The age column
      is a `PositiveIntegerField`, whose CHECK constraint refuses a negative
      age: a date of birth after today makes the insert or update fail
      (None), and nothing is stored. */
  function SavePatient(p: Patient, ids: seq<string>, today: Date): (r: Option<Patient>)
    requires today.year >= 1
    ensures r.None? <==> Before(today, p.dateOfBirth)
    ensures r.Some? && p.patientId != "" ==> r.value.patientId == p.patientId
    ensures r.Some? && p.patientId == "" ==>
      StartsWith(r.value.patientId, PatientPrefix(today.year)) && r.value.patientId !in ids
    ensures r.Some? ==>
      !Before(today, Anniversary(p.dateOfBirth, r.value.age)) && Before(today, Anniversary(p.dateOfBirth, r.value.age + 1))
    ensures r.Some? ==> r.value.(patientId := p.patientId, age := p.age) == p
  {
    var id := if p.patientId == "" then GeneratePatientId(ids, today.year) else p.patientId;
    var age := AgeOn(p.dateOfBirth, today);
    AgeNonNegative(p.dateOfBirth, today);
    if age < 0 then None else Some(p.(patientId := id, age := age))
  }

  /** Saving a stored row again on the same day changes nothing: the id is
      kept, and the age is the same. */
  lemma SavePatientIdempotent(p: Patient, ids: seq<string>, more: seq<string>, today: Date)
    requires today.year >= 1
    ensures var r := SavePatient(p, ids, today);
      r.Some? ==> SavePatient(r.value, more, today) == r
  {
    var r := SavePatient(p, ids, today);
    if r.Some? {
      assert r.value.patientId != "" by {
        if p.patientId == "" {
          assert StartsWith(r.value.patientId, PatientPrefix(today.year));
        }
      }
      assert r.value.dateOfBirth == p.dateOfBirth;
    }
  }

  // ---------------------------------------------------------------------
  // full_name and full_address

  /** `full_name`: "first middle last" with a middle name, else "first last". */
  function FullName(p: Patient): string {
    if Truthy(p.middleName) then p.firstName + " " + p.middleName.value + " " + p.lastName
    else p.firstName + " " + p.lastName
  }

  /** The parts of the name, in order: the middle name only when present. */
  function NameParts(p: Patient): seq<string> {
    [p.firstName] + (if Truthy(p.middleName) then [p.middleName.value] else []) + [p.lastName]
  }

  /** The name is the space-join of its parts. */
  lemma FullNameJoins(p: Patient)
    ensures FullName(p) == Join(" ", NameParts(p))
  {
    var parts := NameParts(p);
    if Truthy(p.middleName) {
      assert parts[1..] == [p.middleName.value, p.lastName];
      assert parts[1..][1..] == [p.lastName];
    } else {
      assert parts[1..] == [p.lastName];
    }
  }

  /** The address lines of `full_address`, in order: line 2 only when present. */
  function AddressParts(p: Patient): (parts: seq<string>)
    ensures |parts| == if Truthy(p.addressLine2) then 5 else 4
    ensures parts[0] == p.addressLine1 && parts[|parts| - 3..] == [p.city, p.state, p.pincode]
  {
    [p.addressLine1] + (if Truthy(p.addressLine2) then [p.addressLine2.value] else []) + [p.city, p.state, p.pincode]
  }

  /** `full_address`: the parts joined with ", ". */
  function FullAddress(p: Patient): string {
    Join(", ", AddressParts(p))
  }

  /** The address written out: line 1, then line 2 when present, then city,
      state and pincode, with ", " between neighbours. */
  lemma {:induction false} FullAddressSpelledOut(p: Patient)
    ensures !Truthy(p.addressLine2) ==>
      FullAddress(p) == p.addressLine1 + ", " + p.city + ", " + p.state + ", " + p.pincode
    ensures Truthy(p.addressLine2) ==>
      FullAddress(p) == p.addressLine1 + ", " + p.addressLine2.value + ", " + p.city + ", " + p.state + ", " + p.pincode
  {
    var parts := AddressParts(p);
    var tail := [p.city, p.state, p.pincode];
    assert tail[1..] == [p.state, p.pincode] && tail[1..][1..] == [p.pincode];
    assert Join(", ", tail) == p.city + ", " + p.state + ", " + p.pincode;
    if Truthy(p.addressLine2) {
      assert parts[1..] == [p.addressLine2.value] + tail;
      assert parts[1..][1..] == tail;
      assert Join(", ", parts[1..]) == p.addressLine2.value + ", " + Join(", ", tail);
    } else {
      assert parts[1..] == tail;
    }
  }

  // ---------------------------------------------------------------------
  // Insurance

  /** `is_insurance_valid`: false without an expiry date, otherwise the
      expiry is strictly after today. */
  predicate IsInsuranceValid(p: Patient, today: Date) {
    p.insuranceExpiry.Some? && Before(today, p.insuranceExpiry.value)
  }

  datatype PolicyStatus = PolicyActive | PolicyExpired | PolicySuspended | PolicyCancelled

  datatype Insurance = Insurance(expiry: Date, status: PolicyStatus)

  /** `PatientInsurance.is_valid`: active and not yet expired. */
  predicate PolicyIsValid(i: Insurance, today: Date) {
    Before(today, i.expiry) && i.status == PolicyActive
  }

  /** Validity ends on the expiry date itself and, once lost, does not come
      back on a later day. */
  lemma InsuranceExpires(p: Patient, i: Insurance, today: Date, later: Date)
    requires !Before(later, today)
    ensures p.insuranceExpiry == Some(today) ==> !IsInsuranceValid(p, today)
    ensures !PolicyIsValid(i, today) ==> !PolicyIsValid(i, later)
    ensures !IsInsuranceValid(p, today) ==> !IsInsuranceValid(p, later)
    ensures PolicyIsValid(i, today) ==> IsInsuranceValid(p.(insuranceExpiry := Some(i.expiry)), today)
  {
  }
}
