/** backend/controllers/appointmentController.js over the appointment collection:
    createAppointment (three checks in order, then the booking date normalised to a local
    day), getTodayCount and getAllAppointments.

    The clock and the `Date` machinery are parameters: `localInstant(y, m, d)` is
    `new Date(y, m, d)` (server-local midnight, `None` for an Invalid Date),
    `genericParse(text)` is `new Date(text)`, and `dateToString(instant, offset)` is Mongo's
    `$dateToString` with format `%Y-%m-%d` in that offset. */
module AppointmentStore {
  import opened Wrappers
  import opened Text
  import opened Seqs
  import opened Calendar
  import opened Schemas
  import opened Replies
  import PatientStore
  import DoctorStore

  /** The fields createAppointment destructures from `req.body`. */
  datatype AppointmentBody = AppointmentBody(
    patient: Option<string>,
    doctor: Option<string>,
    appointmentDate: Option<string>,
    timeSlot: Option<string>,
    reason: Option<string>,
    notes: Option<string>)

  /** `!patient || !doctor || !appointmentDate` is false: all three present and non-empty. */
  predicate HasRequired(b: AppointmentBody)
  {
    Filled(b.patient) && Filled(b.doctor) && Filled(b.appointmentDate)
  }

  /** Some stored patient, or doctor, has the id. */
  predicate HasPatient(ps: seq<Patient>, id: string)
  {
    exists i :: 0 <= i < |ps| && ps[i].id == id
  }

  predicate HasDoctor(ds: seq<Doctor>, id: string)
  {
    exists j :: 0 <= j < |ds| && ds[j].id == id
  }

  /** What `findById(text)` comes to: a CastError, no document, or the document's id. */
  datatype Lookup = BadId | Missing | Found(id: string)

  function FindPatient(ps: seq<Patient>, text: string): (r: Lookup)
    ensures r.BadId? <==> !IsObjectIdText(text)
    ensures r.Missing? <==> IsObjectIdText(text) && forall i :: 0 <= i < |ps| ==> ps[i].id != CastObjectId(text)
    ensures r.Found? ==> r.id == CastObjectId(text) && HasPatient(ps, r.id)
  {
    if !IsObjectIdText(text) then BadId
    else
      var found := PatientStore.IndexOfId(ps, CastObjectId(text));
      if found.None? then Missing else Found(CastObjectId(text))
  }

  function FindDoctor(ds: seq<Doctor>, text: string): (r: Lookup)
    ensures r.BadId? <==> !IsObjectIdText(text)
    ensures r.Missing? <==> IsObjectIdText(text) && forall i :: 0 <= i < |ds| ==> ds[i].id != CastObjectId(text)
    ensures r.Found? ==> r.id == CastObjectId(text) && HasDoctor(ds, r.id)
  {
    if !IsObjectIdText(text) then BadId
    else
      var found := DoctorStore.IndexOfDoctor(ds, CastObjectId(text));
      if found.None? then Missing else Found(CastObjectId(text))
  }

  /** The stored instant of the booking date: a three-part text becomes the local midnight
      of its parts, anything else the generic parse. `None` is an Invalid Date, which the
      schema's Date cast refuses when saving. (The `|| appointmentDate` fallback never
      applies: a `Date` object is always truthy.) */
  function BookingInstant(text: string, localInstant: (int, int, int) -> Option<int>,
                          genericParse: string -> Option<int>): (r: Option<int>)
    ensures |Split(text, '-')| != 3 ==> r == genericParse(text)
  {
    match ReadBookingDate(text)
    case LocalMidnight(year, monthIndex, day) => localInstant(year, monthIndex, day)
    case NotANumber => None
    case Generic(t) => genericParse(t)
  }

  datatype Outcome = Outcome(reply: Reply<Appointment>, appointments: seq<Appointment>)

  /** createAppointment. The first failing check decides the answer: missing fields 400,
      then the patient (CastError 500, unknown 404), then the doctor (the same), then the
      date (Invalid Date 500). Only a booking that passes all of them is stored, with
      status `booked`. */
  function Booked(appts: seq<Appointment>, ps: seq<Patient>, ds: seq<Doctor>, b: AppointmentBody,
                  id: string, now: int, localInstant: (int, int, int) -> Option<int>,
                  genericParse: string -> Option<int>): (r: Outcome)
    ensures r.reply.status in {201, 400, 404, 500}
    ensures r.reply.status != 201 ==> r.appointments == appts && r.reply.data == None
    ensures r.reply.status == 400 <==> !HasRequired(b)
    ensures r.reply.status == 404 <==> (HasRequired(b) &&
      (FindPatient(ps, b.patient.value).Missing? ||
       (FindPatient(ps, b.patient.value).Found? && FindDoctor(ds, b.doctor.value).Missing?)))
    ensures r.reply.status == 201 <==> (HasRequired(b) &&
      FindPatient(ps, b.patient.value).Found? && FindDoctor(ds, b.doctor.value).Found? &&
      BookingInstant(b.appointmentDate.value, localInstant, genericParse).Some?)
    ensures r.reply.status == 201 ==>
      && r.reply.data == Some(NewAppointment(id, CastObjectId(b.patient.value), CastObjectId(b.doctor.value),
           BookingInstant(b.appointmentDate.value, localInstant, genericParse).value,
           b.timeSlot, b.reason, b.notes, now))
      && r.appointments == appts + [r.reply.data.value]
  {
    if !HasRequired(b) then Outcome(Reply(400, None), appts)
    else
      var patient := FindPatient(ps, b.patient.value);
      if patient.BadId? then Outcome(Reply(500, None), appts)
      else if patient.Missing? then Outcome(Reply(404, None), appts)
      else
        var doctor := FindDoctor(ds, b.doctor.value);
        if doctor.BadId? then Outcome(Reply(500, None), appts)
        else if doctor.Missing? then Outcome(Reply(404, None), appts)
        else
          var instant := BookingInstant(b.appointmentDate.value, localInstant, genericParse);
          if instant.None? then Outcome(Reply(500, None), appts)
          else
            var appt := NewAppointment(id, patient.id, doctor.id, instant.value, b.timeSlot, b.reason, b.notes, now);
            Outcome(Reply(201, Some(appt)), appts + [appt])
  }

  /** There is no conflict check: a request that succeeded once succeeds again on the
      collection it produced, with the same booking under the new id. */
  lemma RepeatedBookingSucceeds(appts: seq<Appointment>, ps: seq<Patient>, ds: seq<Doctor>, b: AppointmentBody,
                                id1: string, id2: string, now1: int, now2: int,
                                localInstant: (int, int, int) -> Option<int>, genericParse: string -> Option<int>)
    requires Booked(appts, ps, ds, b, id1, now1, localInstant, genericParse).reply.status == 201
    ensures var first := Booked(appts, ps, ds, b, id1, now1, localInstant, genericParse);
      var second := Booked(first.appointments, ps, ds, b, id2, now2, localInstant, genericParse);
      && second.reply.status == 201
      && |second.appointments| == |appts| + 2
      && second.reply.data.value == first.reply.data.value.(id := id2, createdAt := now2, updatedAt := now2)
  {
  }

  // ---------------------------------------------------------------- references

  /** Every appointment refers to a stored patient and a stored doctor. */
  predicate ReferencesResolve(appts: seq<Appointment>, ps: seq<Patient>, ds: seq<Doctor>)
  {
    forall k :: 0 <= k < |appts| ==> HasPatient(ps, appts[k].patient) && HasDoctor(ds, appts[k].doctor)
  }

  /** Booking only stores references it has found. */
  lemma BookingKeepsReferences(appts: seq<Appointment>, ps: seq<Patient>, ds: seq<Doctor>, b: AppointmentBody,
                               id: string, now: int, localInstant: (int, int, int) -> Option<int>,
                               genericParse: string -> Option<int>)
    requires ReferencesResolve(appts, ps, ds)
    ensures ReferencesResolve(Booked(appts, ps, ds, b, id, now, localInstant, genericParse).appointments, ps, ds)
  {
    var r := Booked(appts, ps, ds, b, id, now, localInstant, genericParse);
    if r.reply.status == 201 {
      var qs := r.appointments;
      forall k | 0 <= k < |qs| ensures HasPatient(ps, qs[k].patient) && HasDoctor(ds, qs[k].doctor) {
        if k < |appts| {
          assert qs[k] == appts[k];
        } else {
          assert qs[k] == r.reply.data.value;
          assert FindPatient(ps, b.patient.value).Found? && FindDoctor(ds, b.doctor.value).Found?;
        }
      }
    }
  }

  /** References stay resolved while no stored id disappears, as with registrations,
      updates (which keep `_id`) and doctor creations. */
  lemma ReferencesSurviveGrowth(appts: seq<Appointment>, ps: seq<Patient>, ds: seq<Doctor>,
                                ps': seq<Patient>, ds': seq<Doctor>)
    requires ReferencesResolve(appts, ps, ds)
    requires forall i :: 0 <= i < |ps| ==> HasPatient(ps', ps[i].id)
    requires forall j :: 0 <= j < |ds| ==> HasDoctor(ds', ds[j].id)
    ensures ReferencesResolve(appts, ps', ds')
  {
    forall k | 0 <= k < |appts| ensures HasPatient(ps', appts[k].patient) && HasDoctor(ds', appts[k].doctor) {
      var i :| 0 <= i < |ps| && ps[i].id == appts[k].patient;
      var j :| 0 <= j < |ds| && ds[j].id == appts[k].doctor;
      assert HasPatient(ps', ps[i].id) && HasDoctor(ds', ds[j].id);
    }
  }

  // ---------------------------------------------------------------- today's count

  /** The `$expr` filter of getTodayCount: the appointment's day, formatted in the offset,
      equals today's text. */
  function OnDay(today: string, offset: string, dateToString: (int, string) -> string): Appointment -> bool
  {
    (a: Appointment) => dateToString(a.appointmentDate, offset) == today
  }

  /** getTodayCount, from the server clock's `getFullYear()`, `getMonth()`, `getDate()` and
      `getTimezoneOffset()`: the number of appointments whose day in the server's offset is
      today, which is the length of the list of exactly those appointments. */
  function TodayCount(appts: seq<Appointment>, fullYear: int, monthIndex: int, date: int, timezoneOffset: int,
                      dateToString: (int, string) -> string): (n: nat)
    ensures var onToday := OnDay(TodayString(fullYear, monthIndex, date), OffsetString(timezoneOffset), dateToString);
      && n == |Filter(appts, onToday)|
      && n <= |appts|
  {
    CountIf(appts, OnDay(TodayString(fullYear, monthIndex, date), OffsetString(timezoneOffset), dateToString))
  }

  /** A new appointment adds one to today's count when its day in the offset is today and
      leaves the count alone otherwise. */
  lemma {:induction false} TodayCountAfterAppend(appts: seq<Appointment>, a: Appointment, fullYear: int, monthIndex: int,
                                                 date: int, timezoneOffset: int, dateToString: (int, string) -> string)
    ensures TodayCount(appts + [a], fullYear, monthIndex, date, timezoneOffset, dateToString) ==
      TodayCount(appts, fullYear, monthIndex, date, timezoneOffset, dateToString) +
      (if dateToString(a.appointmentDate, OffsetString(timezoneOffset)) == TodayString(fullYear, monthIndex, date) then 1 else 0)
  {
    var onToday := OnDay(TodayString(fullYear, monthIndex, date), OffsetString(timezoneOffset), dateToString);
    CountIfAppend(appts, [a], onToday);
    assert [a][1..] == [];
  }

  /** Two identical bookings both count: when the first lands on today, today's count grows
      by two, and otherwise by none. */
  lemma RepeatedBookingCountsTwice(appts: seq<Appointment>, ps: seq<Patient>, ds: seq<Doctor>, b: AppointmentBody,
                                   id1: string, id2: string, now1: int, now2: int,
                                   localInstant: (int, int, int) -> Option<int>, genericParse: string -> Option<int>,
                                   fullYear: int, monthIndex: int, date: int, timezoneOffset: int,
                                   dateToString: (int, string) -> string)
    requires Booked(appts, ps, ds, b, id1, now1, localInstant, genericParse).reply.status == 201
    ensures var first := Booked(appts, ps, ds, b, id1, now1, localInstant, genericParse);
      var second := Booked(first.appointments, ps, ds, b, id2, now2, localInstant, genericParse);
      TodayCount(second.appointments, fullYear, monthIndex, date, timezoneOffset, dateToString) ==
        TodayCount(appts, fullYear, monthIndex, date, timezoneOffset, dateToString) +
        (if dateToString(first.reply.data.value.appointmentDate, OffsetString(timezoneOffset)) ==
            TodayString(fullYear, monthIndex, date) then 2 else 0)
  {
    var first := Booked(appts, ps, ds, b, id1, now1, localInstant, genericParse);
    RepeatedBookingSucceeds(appts, ps, ds, b, id1, id2, now1, now2, localInstant, genericParse);
    var second := Booked(first.appointments, ps, ds, b, id2, now2, localInstant, genericParse);
    var a1, a2 := first.reply.data.value, second.reply.data.value;
    assert a2.appointmentDate == a1.appointmentDate;
    TodayCountAfterAppend(appts, a1, fullYear, monthIndex, date, timezoneOffset, dateToString);
    TodayCountAfterAppend(first.appointments, a2, fullYear, monthIndex, date, timezoneOffset, dateToString);
  }

  /** What "server-local" means for the two clock functions: a local midnight of a real day,
      formatted in the server's offset, is that day's text. */
  ghost predicate RendersLocalDays(localInstant: (int, int, int) -> Option<int>, dateToString: (int, string) -> string,
                             timezoneOffset: int)
  {
    forall year, monthIndex, day :: localInstant(year, monthIndex, day).Some? && ValidDate(Date(year, monthIndex + 1, day)) ==>
      dateToString(localInstant(year, monthIndex, day).value, OffsetString(timezoneOffset)) == TodayString(year, monthIndex, day)
  }

  /** The local midnight of a real day is rendered as that day's text. */
  lemma LocalMidnightRendersDay(localInstant: (int, int, int) -> Option<int>, dateToString: (int, string) -> string,
                                timezoneOffset: int, today: Date)
    requires ValidDate(today)
    requires RendersLocalDays(localInstant, dateToString, timezoneOffset)
    requires localInstant(today.year, today.month - 1, today.day).Some?
    ensures dateToString(localInstant(today.year, today.month - 1, today.day).value, OffsetString(timezoneOffset)) ==
      TodayString(today.year, today.month - 1, today.day)
  {
    assert Date(today.year, today.month - 1 + 1, today.day) == today;
  }

  /** A booking whose date text is stored as the local midnight of a real day is counted
      by that day's getTodayCount on a server whose clock renders local days. */
  lemma BookingOnLocalDayIsCounted(appts: seq<Appointment>, ps: seq<Patient>, ds: seq<Doctor>, b: AppointmentBody,
                                   id: string, now: int, localInstant: (int, int, int) -> Option<int>,
                                   genericParse: string -> Option<int>, dateToString: (int, string) -> string,
                                   today: Date, timezoneOffset: int)
    requires ValidDate(today)
    requires b.appointmentDate.Some? &&
      ReadBookingDate(b.appointmentDate.value) == LocalMidnight(today.year, today.month - 1, today.day)
    requires RendersLocalDays(localInstant, dateToString, timezoneOffset)
    requires Booked(appts, ps, ds, b, id, now, localInstant, genericParse).reply.status == 201
    ensures TodayCount(Booked(appts, ps, ds, b, id, now, localInstant, genericParse).appointments,
                       today.year, today.month - 1, today.day, timezoneOffset, dateToString) ==
            TodayCount(appts, today.year, today.month - 1, today.day, timezoneOffset, dateToString) + 1
  {
    var r := Booked(appts, ps, ds, b, id, now, localInstant, genericParse);
    LocalMidnightRendersDay(localInstant, dateToString, timezoneOffset, today);
    TodayCountAfterAppend(appts, r.reply.data.value, today.year, today.month - 1, today.day, timezoneOffset, dateToString);
  }

  /** A booking made for today, with the date written `YYYY-MM-DD` as the booking form
      sends it, is counted by getTodayCount on a server whose clock renders local days. */
  lemma BookingForTodayIsCounted(appts: seq<Appointment>, ps: seq<Patient>, ds: seq<Doctor>, b: AppointmentBody,
                                 id: string, now: int, localInstant: (int, int, int) -> Option<int>,
                                 genericParse: string -> Option<int>, dateToString: (int, string) -> string,
                                 today: Date, timezoneOffset: int)
    requires ValidDate(today) && today.year >= 0
    requires b.appointmentDate == Some(FormatDay(today))
    requires RendersLocalDays(localInstant, dateToString, timezoneOffset)
    requires Booked(appts, ps, ds, b, id, now, localInstant, genericParse).reply.status == 201
    ensures TodayCount(Booked(appts, ps, ds, b, id, now, localInstant, genericParse).appointments,
                       today.year, today.month - 1, today.day, timezoneOffset, dateToString) ==
            TodayCount(appts, today.year, today.month - 1, today.day, timezoneOffset, dateToString) + 1
  {
    BookingDateRoundTrip(today);
    BookingOnLocalDayIsCounted(appts, ps, ds, b, id, now, localInstant, genericParse, dateToString, today, timezoneOffset);
  }

  // ---------------------------------------------------------------- listing

  /** `populate('patient', 'name mrn')` and `populate('doctor', 'name specialization')`. */
  datatype PatientSummary = PatientSummary(name: string, mrn: string)
  datatype DoctorSummary = DoctorSummary(name: string, specialization: string)

  /** An appointment as listed; a reference that finds no document populates as `null`. */
  datatype Listed = Listed(appointment: Appointment, patient: Option<PatientSummary>, doctor: Option<DoctorSummary>)

  function Populated(a: Appointment, ps: seq<Patient>, ds: seq<Doctor>): (l: Listed)
    ensures l.appointment == a
    ensures l.patient.Some? <==> HasPatient(ps, a.patient)
    ensures l.doctor.Some? <==> HasDoctor(ds, a.doctor)
  {
    var p := PatientStore.IndexOfId(ps, a.patient);
    var d := DoctorStore.IndexOfDoctor(ds, a.doctor);
    Listed(a,
      if p.Some? then Some(PatientSummary(ps[p.value].name, ps[p.value].mrn)) else None,
      if d.Some? then Some(DoctorSummary(ds[d.value].name, ds[d.value].specialization)) else None)
  }

  function AppointmentDate(a: Appointment): int
  {
    a.appointmentDate
  }

  function ListedDate(l: Listed): int
  {
    l.appointment.appointmentDate
  }

  function AppointmentsOf(ls: seq<Listed>): (r: seq<Appointment>)
    ensures |r| == |ls| && forall i :: 0 <= i < |ls| ==> r[i] == ls[i].appointment
  {
    seq(|ls|, i requires 0 <= i < |ls| => ls[i].appointment)
  }

  /** getAllAppointments: every appointment, latest date first, each with its populated
      references, and a count that is the length of the list. */
  function GetAllAppointments(appts: seq<Appointment>, ps: seq<Patient>, ds: seq<Doctor>): (r: Listing<Listed>)
    ensures r.count == |r.data| == |appts|
    ensures SortedDescBy(r.data, ListedDate)
    ensures multiset(AppointmentsOf(r.data)) == multiset(appts)
    ensures forall i :: 0 <= i < |r.data| ==> r.data[i] == Populated(r.data[i].appointment, ps, ds)
  {
    var sorted := SortDescBy(appts, AppointmentDate);
    var data := seq(|sorted|, i requires 0 <= i < |sorted| => Populated(sorted[i], ps, ds));
    assert AppointmentsOf(data) == sorted;
    assert forall i :: 0 <= i < |data| ==> ListedDate(data[i]) == AppointmentDate(sorted[i]);
    ListingOf(data)
  }

  /** While references resolve, no listed appointment has a `null` patient or doctor. */
  lemma ListingIsFullyPopulated(appts: seq<Appointment>, ps: seq<Patient>, ds: seq<Doctor>)
    requires ReferencesResolve(appts, ps, ds)
    ensures var r := GetAllAppointments(appts, ps, ds);
      forall i :: 0 <= i < |r.data| ==> r.data[i].patient.Some? && r.data[i].doctor.Some?
  {
    var r := GetAllAppointments(appts, ps, ds);
    forall i | 0 <= i < |r.data| ensures r.data[i].patient.Some? && r.data[i].doctor.Some? {
      var a := r.data[i].appointment;
      assert a == AppointmentsOf(r.data)[i];
      assert a in multiset(appts);
      var k :| 0 <= k < |appts| && appts[k] == a;
    }
  }

  // ---------------------------------------------------------------- the collection

  predicate AppointmentIdsDistinct(appts: seq<Appointment>)
  {
    forall i, j :: 0 <= i < j < |appts| ==> appts[i].id != appts[j].id
  }

  predicate ValidAppointments(appts: seq<Appointment>)
  {
    AppointmentIdsDistinct(appts) && forall i :: 0 <= i < |appts| ==> ValidAppointment(appts[i])
  }

  /** A booking with a fresh ObjectId keeps every stored appointment valid: ObjectId
      references and a status among the three. */
  lemma BookingKeepsValid(appts: seq<Appointment>, ps: seq<Patient>, ds: seq<Doctor>, b: AppointmentBody,
                          id: string, now: int, localInstant: (int, int, int) -> Option<int>,
                          genericParse: string -> Option<int>)
    requires ValidAppointments(appts) && IsObjectId(id)
    requires forall i :: 0 <= i < |appts| ==> appts[i].id != id
    ensures ValidAppointments(Booked(appts, ps, ds, b, id, now, localInstant, genericParse).appointments)
  {
    var r := Booked(appts, ps, ds, b, id, now, localInstant, genericParse);
    if r.reply.status == 201 {
      AppendKeepsValid(appts, r.reply.data.value);
    }
  }

  lemma AppendKeepsValid(appts: seq<Appointment>, a: Appointment)
    requires ValidAppointments(appts) && ValidAppointment(a)
    requires forall i :: 0 <= i < |appts| ==> appts[i].id != a.id
    ensures ValidAppointments(appts + [a])
  {
    var qs := appts + [a];
    forall i | 0 <= i < |qs| ensures ValidAppointment(qs[i]) {
      if i < |appts| {
        assert qs[i] == appts[i];
      }
    }
    forall i, j | 0 <= i < j < |qs| ensures qs[i].id != qs[j].id {
      assert qs[i] == appts[i];
      if j < |appts| {
        assert qs[j] == appts[j];
      }
    }
  }

  /** The `let apptDateObj` steps of createAppointment: three hyphen-separated parts are
      read with `parseInt` into a local midnight, anything else takes the generic parse. */
  method NormaliseDate(dateText: string, localInstant: (int, int, int) -> Option<int>,
                       genericParse: string -> Option<int>) returns (apptDate: Option<int>)
    ensures apptDate == BookingInstant(dateText, localInstant, genericParse)
  {
    apptDate := None;
    var parts := Split(dateText, '-');
    if |parts| == 3 {
      var y, m, d := ParseInt(parts[0]), ParseInt(parts[1]), ParseInt(parts[2]);
      if y.Some? && m.Some? && d.Some? {
        apptDate := localInstant(y.value, m.value - 1, d.value);
      }
    } else {
      apptDate := genericParse(dateText);
    }
  }

  /** The appointments collection as createAppointment changes it. */
  class AppointmentCollection {
    var appointments: seq<Appointment>

    ghost predicate Valid()
      reads this
    {
      ValidAppointments(appointments)
    }

    constructor()
      ensures appointments == [] && Valid()
    {
      appointments := [];
    }

    /** createAppointment, with `id` the fresh ObjectId the driver assigns. */
    method Create(b: AppointmentBody, ps: seq<Patient>, ds: seq<Doctor>, id: string, now: int,
                  localInstant: (int, int, int) -> Option<int>, genericParse: string -> Option<int>)
      returns (reply: Reply<Appointment>)
      requires Valid() && IsObjectId(id)
      requires forall i :: 0 <= i < |appointments| ==> appointments[i].id != id
      modifies this
      ensures Valid()
      ensures Outcome(reply, appointments) == Booked(old(appointments), ps, ds, b, id, now, localInstant, genericParse)
    {
      BookingKeepsValid(appointments, ps, ds, b, id, now, localInstant, genericParse);
      if !Filled(b.patient) || !Filled(b.doctor) || !Filled(b.appointmentDate) {
        return Reply(400, None);
      }
      var patientText, doctorText, dateText := b.patient.value, b.doctor.value, b.appointmentDate.value;
      if !IsObjectIdText(patientText) {
        return Reply(500, None);
      }
      var foundPatient := PatientStore.IndexOfId(ps, CastObjectId(patientText));
      if foundPatient.None? {
        return Reply(404, None);
      }
      if !IsObjectIdText(doctorText) {
        return Reply(500, None);
      }
      var foundDoctor := DoctorStore.IndexOfDoctor(ds, CastObjectId(doctorText));
      if foundDoctor.None? {
        return Reply(404, None);
      }
      var apptDate := NormaliseDate(dateText, localInstant, genericParse);
      if apptDate.None? {
        return Reply(500, None);
      }
      var appt := NewAppointment(id, ps[foundPatient.value].id, ds[foundDoctor.value].id, apptDate.value,
                                 b.timeSlot, b.reason, b.notes, now);
      appointments := appointments + [appt];
      reply := Reply(201, Some(appt));
    }
  }
}
