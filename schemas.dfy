/** The three Mongoose schemas of backend/models: the stored records, the request bodies they
    are built from, the `required` flags, enums and defaults, and the `trim` / `lowercase`
    setters that normalise a field as it is assigned. */
module Schemas {
  import opened Wrappers
  import opened Text

  /** A body value cast to a schema type (`Date`, `Number`, `Boolean`): it casts to `value`,
      or the cast fails with a CastError, which makes the save or the update fail. */
  datatype Cast<T> = Valid(value: T) | Invalid

  /** An optional body value that is absent or casts. */
  predicate Casts<T>(v: Option<Cast<T>>)
  {
    v.None? || v.value.Valid?
  }

  /** A `required` String path: present and not the empty string. */
  predicate Filled(v: Option<string>)
  {
    v.Some? && v.value != ""
  }

  // ---------------------------------------------------------------- ObjectIds

  predicate IsHexDigit(c: char)
  {
    '0' <= c <= '9' || 'a' <= c <= 'f' || 'A' <= c <= 'F'
  }

  /** Text that casts to an ObjectId: 24 hexadecimal digits, in either case. */
  predicate IsObjectIdText(s: string)
  {
    |s| == 24 && forall i :: 0 <= i < |s| ==> IsHexDigit(s[i])
  }

  /** An ObjectId as it is stored and printed: 24 lower-case hexadecimal digits. */
  predicate IsObjectId(s: string)
  {
    IsObjectIdText(s) && ToLower(s) == s
  }

  /** The ObjectId that `text` casts to. Two texts name the same ObjectId exactly when they
      agree up to the case of their letters. */
  function CastObjectId(text: string): (id: string)
    requires IsObjectIdText(text)
    ensures IsObjectId(id)
    ensures |id| == |text| && forall i :: 0 <= i < |text| ==> id[i] == LowerChar(text[i])
  {
    ToLowerIdempotent(text);
    ToLower(text)
  }

  /** Casting the printed form of an ObjectId gives the same ObjectId back. */
  lemma CastPrintedObjectId(id: string)
    requires IsObjectId(id)
    ensures CastObjectId(id) == id
  {
  }

  // ---------------------------------------------------------------- roles

  /** The roles `authorize('Admin', 'Receptionist')` admits, and the roles for which the
      client shows billing controls. */
  const FrontDeskRoles: seq<string> := ["Admin", "Receptionist"]

  // ---------------------------------------------------------------- setters

  /** The `trim: true` setter of `name`: the stored name has no surrounding whitespace and is
      empty exactly when the given text is all whitespace. */
  function SetName(name: string): (r: string)
    ensures Trimmed(r)
    ensures r == [] <==> Blank(name)
  {
    Trim(name)
  }

  /** The `trim: true, lowercase: true` setters of `email`: the stored address has no
      surrounding whitespace and no upper-case ASCII letter. */
  function SetEmail(email: string): (r: string)
    ensures Trimmed(r)
    ensures forall i :: 0 <= i < |r| ==> !('A' <= r[i] <= 'Z')
    ensures |r| <= |email|
  {
    TrimLength(email);
    ToLowerKeepsTrimmed(Trim(email));
    ToLower(Trim(email))
  }

  /** Trimming never lengthens. */
  lemma TrimLength(s: string)
    ensures |Trim(s)| <= |s|
  {
    var i := LeadingBlanks(s);
    TrimIsMiddle(s, i, ContentEnd(s[i..]));
  }

  /** Both setters are idempotent: a value read back from the store and assigned again is
      stored unchanged. */
  lemma SettersIdempotent(s: string)
    ensures SetName(SetName(s)) == SetName(s)
    ensures SetEmail(SetEmail(s)) == SetEmail(s)
  {
    TrimIdempotent(s);
    var t := Trim(s);
    ToLowerKeepsTrimmed(t);
    TrimOfTrimmed(ToLower(t));
    ToLowerIdempotent(t);
  }

  // ---------------------------------------------------------------- Patient

  const Genders: seq<string> := ["Male", "Female", "Other"]
  const BloodGroups: seq<string> := ["A+", "A-", "B+", "B-", "AB+", "AB-", "O+", "O-"]

  datatype Address = Address(street: Option<string>, city: Option<string>, state: Option<string>, pincode: Option<string>)
  datatype EmergencyContact = EmergencyContact(name: Option<string>, phone: Option<string>, relation: Option<string>)
  datatype MedicalHistory = MedicalHistory(allergies: seq<string>, chronicDiseases: seq<string>, previousSurgeries: seq<string>)

  /** A stored patient document. `billPaid` is `None` for a document that has no such field
      (the default is written only when a document is created). */
  datatype Patient = Patient(
    id: string,
    mrn: string,
    name: string,
    email: Option<string>,
    phone: string,
    dateOfBirth: int,
    gender: string,
    address: Address,
    bloodGroup: Option<string>,
    emergencyContact: EmergencyContact,
    medicalHistory: MedicalHistory,
    billAmount: int,
    billPaid: Option<bool>,
    createdAt: int,
    updatedAt: int)

  /** A request body for a patient (register, update): every path is optional. Nested
      objects are taken whole. */
  datatype PatientBody = PatientBody(
    mrn: Option<string>,
    name: Option<string>,
    email: Option<string>,
    phone: Option<string>,
    dateOfBirth: Option<Cast<int>>,
    gender: Option<string>,
    address: Option<Address>,
    bloodGroup: Option<string>,
    emergencyContact: Option<EmergencyContact>,
    medicalHistory: Option<MedicalHistory>,
    billAmount: Option<Cast<int>>,
    billPaid: Option<Cast<bool>>)

  /** A body carrying only `billPaid`. */
  function BillPaidBody(paid: bool): PatientBody
  {
    PatientBody(None, None, None, None, None, None, None, None, None, None, None, Some(Valid(paid)))
  }

  /** The `bloodGroup` enum as written: absent, or one of the eight groups. The empty text,
      which the registration form sends while no group is chosen, is refused. */
  predicate BloodGroupAcceptedAsWritten(g: Option<string>)
  {
    g.None? || g.value in BloodGroups
  }

  /** The blood group kept for a body value, with the empty choice read as no blood group. */
  function StoredBloodGroup(g: Option<string>): (r: Option<string>)
    ensures r.Some? ==> r.value != ""
    ensures g.Some? && g.value != "" ==> r == g
  {
    if g == Some("") then None else g
  }

  /** The `bloodGroup` enum with the empty choice read as no blood group. */
  predicate BloodGroupAccepted(g: Option<string>)
  {
    BloodGroupAcceptedAsWritten(StoredBloodGroup(g))
  }

  /** The corrected reading of a body: its empty blood-group choice becomes no blood group
      before validation, and nothing else changes. The schema then accepts the blood group
      exactly when the corrected rule accepts the original. */
  function CorrectedBody(b: PatientBody): (c: PatientBody)
    ensures c.bloodGroup != Some("")
    ensures c.bloodGroup == StoredBloodGroup(b.bloodGroup)
    ensures BloodGroupAcceptedAsWritten(c.bloodGroup) <==> BloodGroupAccepted(b.bloodGroup)
    ensures b.bloodGroup != Some("") ==> c == b
    ensures c.(bloodGroup := b.bloodGroup) == b
  {
    b.(bloodGroup := StoredBloodGroup(b.bloodGroup))
  }

  /** The empty choice is refused as written and accepted once read as no blood group; every
      other value is judged alike by both. */
  lemma EmptyBloodGroup(g: Option<string>)
    ensures !BloodGroupAcceptedAsWritten(Some(""))
    ensures BloodGroupAccepted(Some(""))
    ensures g != Some("") ==> (BloodGroupAccepted(g) <==> BloodGroupAcceptedAsWritten(g))
  {
    assert "" !in BloodGroups;
  }

  /** What `validate()` checks before a new patient is saved: `name` (after trimming),
      `phone`, `dateOfBirth` and `gender` are required, `gender` and `bloodGroup` are in
      their enums, and every cast succeeds. */
  predicate PatientBodyValid(b: PatientBody)
  {
    && b.name.Some? && SetName(b.name.value) != ""
    && Filled(b.phone)
    && b.dateOfBirth.Some? && b.dateOfBirth.value.Valid?
    && b.gender.Some? && b.gender.value in Genders
    && BloodGroupAcceptedAsWritten(b.bloodGroup)
    && Casts(b.billAmount)
    && Casts(b.billPaid)
  }

  /** What every stored patient satisfies. */
  predicate ValidPatient(p: Patient)
  {
    && IsObjectId(p.id)
    && p.name != "" && SetName(p.name) == p.name
    && (p.email.Some? ==> SetEmail(p.email.value) == p.email.value)
    && p.phone != ""
    && p.gender in Genders
    && (p.bloodGroup.None? || p.bloodGroup.value in BloodGroups)
  }

  function SetOptionalEmail(email: Option<string>): Option<string>
  {
    if email.Some? then Some(SetEmail(email.value)) else None
  }

  /** A stored optional email is a fixed point of its setters. */
  lemma OptionalEmailNormalised(email: Option<string>)
    ensures var e := SetOptionalEmail(email); e.Some? ==> SetEmail(e.value) == e.value
  {
    if email.Some? {
      SettersIdempotent(email.value);
    }
  }

  /** `new Patient(body)` for a body that validates: setters applied, `billAmount` 0,
      `billPaid` false and empty medical lists when absent, both timestamps `now`. The `mrn`
      is the one given, or "" until the pre-save hook assigns one. */
  function NewPatient(b: PatientBody, id: string, now: int): (p: Patient)
    requires PatientBodyValid(b)
    ensures b.billAmount.None? ==> p.billAmount == 0
    ensures b.billPaid.None? ==> p.billPaid == Some(false)
    ensures b.medicalHistory.None? ==> p.medicalHistory == MedicalHistory([], [], [])
    ensures p.name == Trim(b.name.value)
    ensures b.email.Some? ==> p.email == Some(ToLower(Trim(b.email.value)))
    ensures p.bloodGroup == b.bloodGroup && (p.bloodGroup.None? || p.bloodGroup.value in BloodGroups)
    ensures IsObjectId(id) ==> ValidPatient(p)
  {
    SettersIdempotent(b.name.value);
    OptionalEmailNormalised(b.email);
    Patient(
      id,
      b.mrn.GetOr(""),
      SetName(b.name.value),
      SetOptionalEmail(b.email),
      b.phone.value,
      b.dateOfBirth.value.value,
      b.gender.value,
      b.address.GetOr(Address(None, None, None, None)),
      b.bloodGroup,
      b.emergencyContact.GetOr(EmergencyContact(None, None, None)),
      b.medicalHistory.GetOr(MedicalHistory([], [], [])),
      if b.billAmount.Some? then b.billAmount.value.value else 0,
      if b.billPaid.Some? then Some(b.billPaid.value.value) else Some(false),
      now,
      now)
  }

  /** The update validators of `findByIdAndUpdate(id, body, { runValidators: true })`: only
      the paths present in the body are checked, against the same rules as on creation. */
  predicate PatchValid(b: PatientBody)
  {
    && (b.name.Some? ==> SetName(b.name.value) != "")
    && (b.phone.Some? ==> b.phone.value != "")
    && Casts(b.dateOfBirth)
    && (b.gender.Some? ==> b.gender.value in Genders)
    && BloodGroupAcceptedAsWritten(b.bloodGroup)
    && Casts(b.billAmount)
    && Casts(b.billPaid)
  }

  /** Every body that validates for creation also passes the update validators. */
  lemma CreationRulesCoverUpdate(b: PatientBody)
    requires PatientBodyValid(b)
    ensures PatchValid(b)
  {
  }

  /** The record after `$set` of the body's paths, setters applied, `updatedAt` set to
      `now`; no save hook runs. */
  function Patched(p: Patient, b: PatientBody, now: int): Patient
    requires PatchValid(b)
  {
    p.(
      mrn := b.mrn.GetOr(p.mrn),
      name := if b.name.Some? then SetName(b.name.value) else p.name,
      email := if b.email.Some? then SetOptionalEmail(b.email) else p.email,
      phone := b.phone.GetOr(p.phone),
      dateOfBirth := if b.dateOfBirth.Some? then b.dateOfBirth.value.value else p.dateOfBirth,
      gender := b.gender.GetOr(p.gender),
      address := b.address.GetOr(p.address),
      bloodGroup := if b.bloodGroup.Some? then b.bloodGroup else p.bloodGroup,
      emergencyContact := b.emergencyContact.GetOr(p.emergencyContact),
      medicalHistory := b.medicalHistory.GetOr(p.medicalHistory),
      billAmount := if b.billAmount.Some? then b.billAmount.value.value else p.billAmount,
      billPaid := if b.billPaid.Some? then Some(b.billPaid.value.value) else p.billPaid,
      updatedAt := now)
  }

  /** A path absent from the body keeps its value, and so do the id and `createdAt`. */
  lemma PatchedKeepsAbsentPaths(p: Patient, b: PatientBody, now: int)
    requires PatchValid(b)
    ensures var q := Patched(p, b, now);
      && q.id == p.id && q.createdAt == p.createdAt && q.updatedAt == now
      && (b.mrn.None? ==> q.mrn == p.mrn)
      && (b.name.None? ==> q.name == p.name)
      && (b.email.None? ==> q.email == p.email)
      && (b.phone.None? ==> q.phone == p.phone)
      && (b.dateOfBirth.None? ==> q.dateOfBirth == p.dateOfBirth)
      && (b.gender.None? ==> q.gender == p.gender)
      && (b.address.None? ==> q.address == p.address)
      && (b.bloodGroup.None? ==> q.bloodGroup == p.bloodGroup)
      && (b.emergencyContact.None? ==> q.emergencyContact == p.emergencyContact)
      && (b.medicalHistory.None? ==> q.medicalHistory == p.medicalHistory)
      && (b.billAmount.None? ==> q.billAmount == p.billAmount)
      && (b.billPaid.None? ==> q.billPaid == p.billPaid)
  {
  }

  /** A path present in the body takes the body's value, normalised by its setter; the
      result does not depend on the record's old value of that path. */
  lemma PatchedTakesPresentPaths(p: Patient, p': Patient, b: PatientBody, now: int)
    requires PatchValid(b)
    ensures var q, q' := Patched(p, b, now), Patched(p', b, now);
      && (b.name.Some? ==> q.name == Trim(b.name.value) && q'.name == q.name)
      && (b.email.Some? ==> q.email == Some(ToLower(Trim(b.email.value))) && q'.email == q.email)
      && (b.billAmount.Some? ==> q'.billAmount == q.billAmount)
      && (b.billPaid.Some? ==> q.billPaid == Some(b.billPaid.value.value) && q'.billPaid == q.billPaid)
      && (b.gender.Some? ==> q.gender == b.gender.value && q'.gender == q.gender)
      && (b.bloodGroup.Some? ==> q.bloodGroup == b.bloodGroup && q'.bloodGroup == q.bloodGroup)
  {
  }

  /** Applying the same body twice gives the record applying it once gives. */
  lemma PatchedIdempotent(p: Patient, b: PatientBody, now: int)
    requires PatchValid(b)
    ensures Patched(Patched(p, b, now), b, now) == Patched(p, b, now)
  {
  }

  /** `{ billPaid: true }` sets the flag and leaves the amount, and everything else but
      `updatedAt`, as it was. */
  lemma MarkPaidKeepsAmount(p: Patient, now: int)
    ensures PatchValid(BillPaidBody(true))
    ensures Patched(p, BillPaidBody(true), now) == p.(billPaid := Some(true), updatedAt := now)
  {
  }

  /** An update that passes its validators keeps a valid record valid. */
  lemma PatchedValid(p: Patient, b: PatientBody, now: int)
    requires ValidPatient(p) && PatchValid(b)
    ensures ValidPatient(Patched(p, b, now))
  {
    if b.name.Some? {
      SettersIdempotent(b.name.value);
    }
    if b.email.Some? {
      SettersIdempotent(b.email.value);
    }
  }

  // ---------------------------------------------------------------- Doctor

  const Weekdays: seq<string> := ["Monday", "Tuesday", "Wednesday", "Thursday", "Friday", "Saturday", "Sunday"]

  datatype ScheduleEntry = ScheduleEntry(day: Option<string>, startTime: Option<string>, endTime: Option<string>)

  /** A stored doctor document. */
  datatype Doctor = Doctor(
    id: string,
    doctorId: string,
    name: string,
    specialization: string,
    qualification: Option<string>,
    email: Option<string>,
    phone: string,
    consultationFee: int,
    schedule: seq<ScheduleEntry>,
    isAvailable: bool,
    createdAt: int,
    updatedAt: int)

  /** A request body for a doctor. */
  datatype DoctorBody = DoctorBody(
    doctorId: Option<string>,
    name: Option<string>,
    specialization: Option<string>,
    qualification: Option<string>,
    email: Option<string>,
    phone: Option<string>,
    consultationFee: Option<Cast<int>>,
    schedule: Option<seq<ScheduleEntry>>,
    isAvailable: Option<Cast<bool>>)

  /** Every schedule entry's `day` is absent or one of the seven weekday names. */
  predicate ScheduleValid(s: seq<ScheduleEntry>)
  {
    forall i :: 0 <= i < |s| ==> s[i].day.None? || s[i].day.value in Weekdays
  }

  /** `doctorId`, `name`, `specialization`, `phone` and `consultationFee` are required,
      `qualification` and `email` are free, the schedule days are weekdays. */
  predicate DoctorBodyValid(b: DoctorBody)
  {
    && Filled(b.doctorId)
    && Filled(b.name)
    && Filled(b.specialization)
    && Filled(b.phone)
    && b.consultationFee.Some? && b.consultationFee.value.Valid?
    && ScheduleValid(b.schedule.GetOr([]))
    && Casts(b.isAvailable)
  }

  /** What every stored doctor satisfies. */
  predicate ValidDoctor(d: Doctor)
  {
    IsObjectId(d.id) && d.doctorId != "" && d.name != "" && d.specialization != "" && d.phone != ""
    && ScheduleValid(d.schedule)
  }

  /** `new Doctor(body)` for a body that validates: an absent schedule is empty and an
      absent `isAvailable` is true. */
  function NewDoctor(b: DoctorBody, id: string, now: int): (d: Doctor)
    requires DoctorBodyValid(b)
    ensures d.doctorId == b.doctorId.value
    ensures b.isAvailable.None? ==> d.isAvailable
    ensures b.schedule.None? ==> d.schedule == []
    ensures b.qualification == None ==> d.qualification == None
    ensures IsObjectId(id) ==> ValidDoctor(d)
  {
    Doctor(
      id,
      b.doctorId.value,
      b.name.value,
      b.specialization.value,
      b.qualification,
      b.email,
      b.phone.value,
      b.consultationFee.value.value,
      b.schedule.GetOr([]),
      if b.isAvailable.Some? then b.isAvailable.value.value else true,
      now,
      now)
  }

  /** `qualification` and `email` are optional: leaving them out never makes a body fail. */
  lemma DoctorOptionalPaths(b: DoctorBody)
    ensures DoctorBodyValid(b) <==> DoctorBodyValid(b.(qualification := None, email := None))
  {
  }

  // ---------------------------------------------------------------- Appointment

  const Statuses: seq<string> := ["booked", "completed", "cancelled"]
  const DefaultStatus: string := "booked"

  /** A stored appointment; `patient` and `doctor` are ObjectId references. */
  datatype Appointment = Appointment(
    id: string,
    patient: string,
    doctor: string,
    appointmentDate: int,
    timeSlot: Option<string>,
    reason: Option<string>,
    notes: Option<string>,
    status: string,
    createdAt: int,
    updatedAt: int)

  /** What every stored appointment satisfies: both references are ObjectIds and the status
      is one of the three. */
  predicate ValidAppointment(a: Appointment)
  {
    IsObjectId(a.id) && IsObjectId(a.patient) && IsObjectId(a.doctor) && a.status in Statuses
  }

  /** `new Appointment({ patient, doctor, appointmentDate, timeSlot, reason, notes })`: no
      status is passed, so the status is the default `booked`; the three optional texts are
      kept as given. */
  function NewAppointment(id: string, patient: string, doctor: string, date: int,
                          timeSlot: Option<string>, reason: Option<string>, notes: Option<string>,
                          now: int): (a: Appointment)
    ensures a.status == "booked" && a.status in Statuses
    ensures a.timeSlot == timeSlot && a.reason == reason && a.notes == notes
    ensures IsObjectId(id) && IsObjectId(patient) && IsObjectId(doctor) ==> ValidAppointment(a)
  {
    Appointment(id, patient, doctor, date, timeSlot, reason, notes, DefaultStatus, now, now)
  }
}
