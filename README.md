# Hospital management: a verified model of the core

This project models the logic of a small hospital-management application in Dafny. The
application is an Express/Mongoose backend with a React front end. The model covers these
parts and proves properties of each:

- **Patient records.** MRN generation in the pre-save hook, the schema's setters, defaults
  and enums, and the operations of the patient controller: register, get by id, list,
  search, update, the pending-bills count and the development-only update.
- **Doctors.** Code assignment (`DOC0001`, `DOC0002`, …), validation and the doctor list.
- **Appointments.** Booking with its ordered checks and date normalisation, today's count
  over a `YYYY-MM-DD` day string and a `±HH:MM` offset, and the populated list sorted by
  date.
- **The patient router.** It dispatches first match wins, behind its authentication and
  role gates.
- **Front-end logic:**
  - the registration and edit forms' updaters, including the comma-list parser and the
    `billAmount` coercion;
  - the patient list's filter and age;
  - the dashboard's stats merge;
  - the patient page's payment toggle.

Each module is one file:

| file | module | what it holds |
|---|---|---|
| `wrappers.dfy` | `Wrappers` | `Option` |
| `text.dfy` | `Text` | the JavaScript string operations the code uses: `String(n)`, `padStart`, `parseInt`, `trim`, `toLowerCase`, `includes`, `split`, `join` |
| `seqs.dfy` | `Seqs` | counting, filtering, subsequences, sorting newest first |
| `identifiers.dfy` | `Identifiers` | MRN and doctor-code formats |
| `calendar.dfy` | `Calendar` | dates, `YYYY-MM-DD`, `±HH:MM` (the `full-date` and `time-numoffset` productions of section 5.6 of RFC 3339), the booking-date reading, age |
| `schemas.dfy` | `Schemas` | the three Mongoose schemas: records, bodies, validators, setters, defaults |
| `replies.dfy` | `Replies` | status-and-data replies, list answers, `a \|\| b \|\| 'text'` messages |
| `patient_store.dfy` | `PatientStore` | patient controller; class `PatientCollection` |
| `doctor_store.dfy` | `DoctorStore` | doctor controller; class `DoctorCollection` |
| `appointment_store.dfy` | `AppointmentStore` | appointment controller; class `AppointmentCollection` |
| `patient_routes.dfy` | `PatientRoutes` | patient route table; class `Router` |
| `forms.dfy` | `Forms` | registration and edit form updaters |
| `patient_list_view.dfy` | `PatientListView` | patient list page; class `PatientList` |
| `dashboard.dfy` | `Dashboard` | dashboard; class `DashboardPage` |
| `patient_view.dfy` | `PatientView` | patient page's payment toggle; class `PatientPage` |

### How the application is represented

- **Collections.** Each collection is a `seq` of records in insertion order, and ids are
  pairwise distinct. Operations that change a collection are methods of a class whose field
  is that `seq`. Each such method is proved equal to a function of the old collection, and
  the properties are lemmas about that function.
- **Parameters for what the code does not compute.** These become parameters of the model:
  - the ObjectId the driver assigns;
  - the clock (`now`, and the server's local date and time-zone offset);
  - the requests' answers, on the front end;
  - three date operations: `new Date(y, m, d)`, `new Date(text)` and MongoDB's
    `$dateToString`.
- **Instants.** Instants are integers.

Two behaviours of the code worth noting, both modelled as the code has them:

- A search for `MRN00001` does not find `MRN000001`: it is one zero short, and the search is
  a substring match. `PatientStore.ShortQueryMissesFirstMrn` states this.
- The empty blood group that the registration form sends is refused by the schema, so an
  untouched form gets 400. The store operations follow the code; the corrected reading is a
  separate operation, `PatientStore.RegisteredCorrected`. See Findings.

## Model

| member | source | states |
|---|---|---|
| Identifiers.FormatId | backend/models/Patient.js:69 | the id is the prefix followed by digits that read back as the number and fill at least the width |
| Identifiers.FormatIdInjective | backend/models/Patient.js:69 | two numbers share an id under one prefix and width exactly when they are equal |
| Identifiers.NextMrnShape | backend/models/Patient.js:68-69 | the MRN is "MRN" and count+1; nine characters while count+1 < 10^6, all digits kept (never truncated) beyond |
| Identifiers.NextDoctorIdShape | backend/controllers/doctorController.js:6-7 | the code is "DOC" and count+1; seven characters while count+1 < 10^4, all digits kept beyond |
| Identifiers.NextMrnInjective | backend/models/Patient.js:68-69 | two counts give the same MRN if and only if they are equal |
| Identifiers.NextDoctorIdInjective | backend/controllers/doctorController.js:6-7 | two counts give the same doctor code if and only if they are equal |
| Identifiers.FirstMrn | backend/models/Patient.js:69 | the first MRN is MRN000001 |
| Identifiers.SecondMrn | backend/models/Patient.js:69 | the second MRN is MRN000002 |
| Identifiers.TenthMrn | backend/models/Patient.js:69 | the tenth MRN is MRN000010 |
| Identifiers.FirstDoctorId | backend/controllers/doctorController.js:7 | the first doctor code is DOC0001 |
| Identifiers.ShortFormatId | backend/models/Patient.js:69 | padding only prepends zeros to the number's digits |
| Identifiers.PreSaveMrn | backend/models/Patient.js:66-72 | a new document with no or an empty MRN gets the next MRN; any other keeps its MRN |
| Schemas.CastObjectId | backend/controllers/patientController.js:41 | a 24-hex-digit text casts to the ObjectId equal to it up to letter case |
| Schemas.CastPrintedObjectId | backend/controllers/patientController.js:41 | casting a printed ObjectId gives it back |
| Schemas.SetName | backend/models/Patient.js:8-12 | the stored name is trimmed, and empty exactly when the given one is blank |
| Schemas.SetEmail | backend/models/Patient.js:13-17 | the stored email is trimmed, has no ASCII upper-case letter and is no longer than the given one |
| Schemas.SettersIdempotent | backend/models/Patient.js:8-17 | applying either setter to a stored value leaves it unchanged |
| Schemas.StoredBloodGroup | backend/models/Patient.js:37-40 | the corrected reading: an empty choice is stored as no blood group, and any other value is kept |
| Schemas.EmptyBloodGroup | backend/models/Patient.js:37-40 | the empty blood group is refused as written and accepted by the corrected rule, which agrees with the written rule on every other value |
| Schemas.OptionalEmailNormalised | backend/models/Patient.js:13-17 | a stored email is a fixed point of its setters |
| Schemas.NewPatient | backend/models/Patient.js:3-63 | a new record has `billAmount` 0, `billPaid` false and empty medical lists by default, a trimmed name, a trimmed lower-case email and the body's blood group (absent or one of the eight), and is valid |
| Schemas.CorrectedBody | backend/models/Patient.js:37-40 | the corrected reading of a body: the empty blood-group choice becomes no blood group, any other body is unchanged, and the enum then accepts exactly what the corrected rule accepts |
| Schemas.CreationRulesCoverUpdate | backend/models/Patient.js:3-63 | a body that validates on creation also passes the update validators |
| Schemas.PatchedKeepsAbsentPaths | backend/controllers/patientController.js:93-97 | an update keeps every path the body leaves out, and keeps the id and `createdAt` |
| Schemas.PatchedTakesPresentPaths | backend/controllers/patientController.js:93-97 | a path in the body takes the body's value through its setter, whatever the old value |
| Schemas.PatchedIdempotent | backend/controllers/patientController.js:93-97 | at one timestamp, applying the same update twice equals applying it once |
| Schemas.MarkPaidKeepsAmount | backend/controllers/patientController.js:93-97 | `{billPaid: true}` sets the flag and changes nothing else but `updatedAt` |
| Schemas.PatchedValid | backend/controllers/patientController.js:93-97 | an update that passes its validators keeps a record valid |
| Schemas.NewDoctor | backend/models/Doctor.js:3-41 | a new doctor has the body's code, `isAvailable` true and an empty schedule by default, and is valid |
| Schemas.DoctorOptionalPaths | backend/models/Doctor.js:17-18 | leaving out `qualification` and `email` never makes a doctor body fail |
| Schemas.NewAppointment | backend/models/Appointment.js:21-25 | a new appointment has status `booked` (one of the three), keeps its optional texts as given and is valid |
| PatientStore.IndexOfId | backend/controllers/patientController.js:41 | the index found holds the id, and none is found exactly when no record has it |
| PatientStore.IndexOfIdUnique | backend/controllers/patientController.js:41 | with distinct ids, the index found is the one holding the id |
| PatientStore.Registered | backend/controllers/patientController.js:4-19 | 201 exactly when the body validates (the blood-group enum as written) and the assigned MRN is free; then `new Patient(body)` with the assigned MRN is appended and returned; otherwise 400 and no change |
| PatientStore.RegisteredMrn | backend/models/Patient.js:66-72 | a registration without an MRN stores the next MRN; one with an MRN keeps it |
| PatientStore.RegisteredKeepsStoreValid | backend/controllers/patientController.js:4-19 | registering keeps ids and MRNs distinct and every record valid |
| PatientStore.SuccessiveRegistrations | backend/models/Patient.js:68-69 | in sequential registrations each valid body succeeds with the next MRN, and the MRNs stay numbered and distinct |
| PatientStore.NextMrnIsFree | backend/models/Patient.js:4-7 | the next MRN is held by no record of a numbered collection |
| PatientStore.NumberedMrnsDistinct | backend/models/Patient.js:4-7 | numbered MRNs are pairwise distinct |
| PatientStore.Updated | backend/controllers/patientController.js:84-121 | the status is 200, 400 or 404; 404 exactly for a valid id and body with no record; 200 exactly for a valid id and body with a record and no given MRN held by another record; any failure leaves the collection unchanged |
| PatientStore.UpdatedTouchesOnlyTarget | backend/controllers/patientController.js:93-114 | a successful update replaces only the record with the id, by the patched record, which is also the one returned |
| PatientStore.UpdatedKeepsStoreValid | backend/controllers/patientController.js:84-121 | an update keeps the collection valid |
| PatientStore.UpdatedTwice | backend/controllers/patientController.js:93-97 | at one timestamp, sending the same update twice leaves the collection and the answer as sending it once |
| PatientStore.EmptyChoiceRefused | backend/models/Patient.js:37-40 | as written, a body with the empty blood-group choice is answered 400 by registration and by update, and nothing is stored |
| PatientStore.RegisteredCorrected | backend/models/Patient.js:37-40 | the corrected registration: 201 exactly when the corrected body validates and the MRN is free, the record stores the corrected blood group, and any body without the empty choice is registered exactly as written |
| PatientStore.EmptyChoiceRegisteredWhenCorrected | backend/models/Patient.js:37-40 | with the corrected reading a body valid but for its empty choice is registered with no blood group |
| PatientStore.RegisteredCorrectedKeepsStoreValid | backend/controllers/patientController.js:4-19 | the corrected registration keeps the collection valid |
| PatientStore.MarkPaidKeepsAmount | backend/controllers/patientController.js:93-97 | marking a stored patient paid answers 200, sets `billPaid` and leaves `billAmount` |
| PatientStore.DevUpdated | backend/controllers/patientController.js:134-147 | 403 and no change in production; otherwise exactly an update |
| PatientStore.GetById | backend/controllers/patientController.js:39-58 | 500 exactly for a non-ObjectId text, 404 exactly when no record has the id, otherwise the record with that id |
| PatientStore.GetAllPatients | backend/controllers/patientController.js:22-36 | every record, newest first, a permutation of the collection, with `count` the list's length |
| PatientStore.Search | backend/controllers/patientController.js:61-81 | a record is listed exactly when its MRN or name contains the query, ignoring ASCII case; there are no duplicates, collection order is kept, and `count` is the length |
| PatientStore.ShortQueryMissesFirstMrn | backend/controllers/patientController.js:64-69 | "mrn00001" does not match MRN000001; such a patient is found only through its name |
| PatientStore.PendingCount | backend/controllers/patientController.js:126 | the count of records whose `billPaid` is not true, unset included |
| PatientStore.PaidCount | backend/scripts/checkBills.js:10 | the count of records whose `billPaid` is true |
| PatientStore.PendingPlusPaid | backend/scripts/checkBills.js:9-11 | pending plus paid is the number of patients |
| PatientStore.PatientCollection.Register | backend/controllers/patientController.js:4-19 | the new collection and reply are those of `Registered`, and the collection stays valid |
| PatientStore.PatientCollection.Update | backend/controllers/patientController.js:84-121 | the new collection and reply are those of `Updated`, and the collection stays valid |
| PatientStore.PatientCollection.DevUpdate | backend/controllers/patientController.js:134-147 | the new collection and reply are those of `DevUpdated`, and the collection stays valid |
| DoctorStore.NumberedCodesDistinct | backend/models/Doctor.js:4-8 | numbered doctor codes are pairwise distinct |
| DoctorStore.Created | backend/controllers/doctorController.js:4-22 | 201 or 400; a 400 stores nothing and returns no data; a 201 appends the new doctor, whose code is the one for the count |
| DoctorStore.ClientCodeIgnored | backend/controllers/doctorController.js:7 | any client-supplied `doctorId` gives the same outcome as none: it is overwritten |
| DoctorStore.CreatedKeepsNumbered | backend/controllers/doctorController.js:6-9 | in a numbered collection creation succeeds exactly when the body, given the next code, validates; the codes stay DOC0001, DOC0002, … |
| DoctorStore.CreatedKeepsStoreValid | backend/controllers/doctorController.js:4-22 | creation keeps ids distinct, codes numbered and every doctor valid |
| DoctorStore.AppendKeepsDoctorStore | backend/models/Doctor.js:3-41 | appending a valid doctor with a fresh id and the next code keeps the collection valid |
| DoctorStore.FirstDoctorGetsDoc0001 | backend/controllers/doctorController.js:6-7 | the first doctor created gets DOC0001 |
| DoctorStore.GetAllDoctors | backend/controllers/doctorController.js:25-38 | every doctor, with `count` the length of `data` |
| DoctorStore.IndexOfDoctor | backend/controllers/appointmentController.js:21 | the index found holds the id, and none is found exactly when no doctor has it |
| DoctorStore.DoctorCollection.CreateDoctor | backend/controllers/doctorController.js:4-22 | the new collection and reply are those of `Created`, and the collection stays valid |
| AppointmentStore.FindPatient | backend/controllers/appointmentController.js:16-19 | a cast error exactly for non-ObjectId text, missing exactly when no patient has the id, otherwise a stored patient's id |
| AppointmentStore.FindDoctor | backend/controllers/appointmentController.js:21-24 | a cast error exactly for non-ObjectId text, missing exactly when no doctor has the id, otherwise a stored doctor's id |
| AppointmentStore.BookingInstant | backend/controllers/appointmentController.js:27-40 | text without exactly three hyphen-separated parts takes the generic parse |
| AppointmentStore.NormaliseDate | backend/controllers/appointmentController.js:27-40 | the `let apptDateObj` steps give the booking instant |
| AppointmentStore.Booked | backend/controllers/appointmentController.js:6-57 | the checks run in order: 400 for missing fields, then 404 or 500 for the patient, then for the doctor, then 500 for a date that does not read; 400, 404 and 201 are each stated as an if-and-only-if; a failure stores nothing; a 201 appends the booked appointment with the cast references and the read date |
| AppointmentStore.RepeatedBookingSucceeds | backend/controllers/appointmentController.js:42-53 | no conflict check: the same request succeeds again and stores the same booking under a new id |
| AppointmentStore.RepeatedBookingCountsTwice | backend/controllers/appointmentController.js:42-82 | two identical bookings for today raise today's count by two |
| AppointmentStore.BookingKeepsReferences | backend/controllers/appointmentController.js:16-24 | booking stores only references to patients and doctors that exist |
| AppointmentStore.ReferencesSurviveGrowth | backend/models/Appointment.js:4-13 | references stay resolved while no stored id disappears |
| AppointmentStore.TodayCount | backend/controllers/appointmentController.js:60-88 | today's count is the length of the list of appointments whose day, formatted in the offset, is today's text |
| AppointmentStore.TodayCountAfterAppend | backend/controllers/appointmentController.js:75-82 | a new appointment adds one exactly when its formatted day is today |
| AppointmentStore.LocalMidnightRendersDay | backend/controllers/appointmentController.js:36 | on a server that renders local days, a local midnight is formatted as its day |
| AppointmentStore.BookingOnLocalDayIsCounted | backend/controllers/appointmentController.js:30-82 | a booking stored at today's local midnight adds one to today's count |
| AppointmentStore.BookingForTodayIsCounted | backend/controllers/appointmentController.js:30-82 | a booking for today written `YYYY-MM-DD` adds one to today's count |
| AppointmentStore.Populated | backend/controllers/appointmentController.js:94-95 | the listed entry keeps the appointment, and a reference populates exactly when its document exists |
| AppointmentStore.AppointmentsOf | backend/controllers/appointmentController.js:93-97 | the appointments behind the listed entries, in order |
| AppointmentStore.GetAllAppointments | backend/controllers/appointmentController.js:91-101 | every appointment once (a permutation), latest date first, each populated, with `count` the length |
| AppointmentStore.ListingIsFullyPopulated | backend/controllers/appointmentController.js:94-95 | while references resolve, no listed entry has a null patient or doctor |
| AppointmentStore.BookingKeepsValid | backend/models/Appointment.js:3-28 | booking keeps every appointment valid: ObjectId references and a status among the three |
| AppointmentStore.AppendKeepsValid | backend/models/Appointment.js:3-28 | appending a valid appointment with a fresh id keeps the collection valid |
| AppointmentStore.AppointmentCollection.Create | backend/controllers/appointmentController.js:6-57 | the new collection and reply are those of `Booked`, and the collection stays valid |
| Calendar.FormatDayFields | backend/controllers/appointmentController.js:65 | a day is written as the year's digits and the month and day padded to two digits |
| Calendar.TodayStringIsFullDate | backend/controllers/appointmentController.js:65 | for a four-digit year, today's text is an RFC 3339 full-date whose fields read back as the day |
| Calendar.OffsetStringReadsBack | backend/controllers/appointmentController.js:68-72 | the offset string reads back as the local lead on UTC (hours×60 + minutes is its magnitude), with `+` exactly when that lead is not negative |
| Calendar.OffsetStringIsNumOffset | backend/controllers/appointmentController.js:68-72 | every offset below a day in magnitude gives an RFC 3339 time-numoffset |
| Calendar.ReadBookingDate | backend/controllers/appointmentController.js:30-39 | the generic parse is taken exactly when the text does not have three hyphen-separated parts, and it gets the text unchanged |
| Calendar.ReadParts | backend/controllers/appointmentController.js:32-36 | three parts give a local midnight exactly when `parseInt` reads all three |
| Calendar.ReadParsedParts | backend/controllers/appointmentController.js:32-36 | parsed parts give the local midnight of those numbers, month made zero-based |
| Calendar.BookingDateRoundTrip | backend/controllers/appointmentController.js:30-36 | a real day written `YYYY-MM-DD` is read as that local day, and formatting it gives the text back |
| Calendar.IsoTimestampKeepsDay | backend/controllers/appointmentController.js:30-36 | an ISO timestamp with a hyphen-free clock is read as its day |
| Calendar.OffsetTimestampIsGeneric | backend/controllers/appointmentController.js:37-39 | a timestamp with a negative offset has four parts and takes the generic parse |
| Calendar.Age | froentend/src/components/PatientList.jsx:47-56 | the age is the number of whole years lived: that anniversary is not after today and the next one is |
| Calendar.AgeOnBirthday | froentend/src/components/PatientList.jsx:52 | on the birthday the age is the year difference |
| Calendar.AgeOnEveOfBirthday | froentend/src/components/PatientList.jsx:52-53 | the day before the birthday the age is one less than the year difference |
| Calendar.AgeIsUnique | froentend/src/components/PatientList.jsx:47-56 | any number of years bounded like the age is the age |
| PatientListView.CalculateAge | froentend/src/components/PatientList.jsx:47-56 | the decrement-under-condition steps compute `Calendar.Age`, with its two bounds |
| PatientListView.FilterPatients | froentend/src/components/PatientList.jsx:20-31 | a blank query keeps every patient; any other keeps a patient exactly when its (ASCII) lower-cased name or MRN contains the lower-cased query or its phone contains the query verbatim; the result is an order-preserving subsequence |
| PatientListView.PaddedQueryMissesName | froentend/src/components/PatientList.jsx:21-27 | the query is matched untrimmed: a padded exact name misses the patient the trimmed query finds |
| PatientListView.NothingLoadedNothingShown | froentend/src/components/PatientList.jsx:24 | an empty list shows nothing whatever the query |
| PatientListView.FetchError | froentend/src/components/PatientList.jsx:41 | the server's message when it has one, else the stock text; never empty |
| PatientListView.PatientList.FetchPatients | froentend/src/components/PatientList.jsx:33-45 | a successful answer replaces the list, an unsuccessful one changes nothing, a thrown one sets the error; loading ends; the shown list stays the filter of the list by the query |
| PatientListView.PatientList.Load | froentend/src/components/PatientList.jsx:37-38 | the list becomes the data and the shown list is refiltered |
| PatientListView.PatientList.SetSearchQuery | froentend/src/components/PatientList.jsx:20-31 | the query changes and the shown list is its filter of the unchanged list |
| PatientListView.PatientList.ApplySearch | froentend/src/components/PatientList.jsx:20-31 | the shown list becomes `FilterPatients` of the list and query, and nothing else changes |
| Forms.HandleChange | froentend/src/components/PatientRegistration.jsx:36-54 | the form's keys gain only the changed name or its parent |
| Forms.UndottedChange | froentend/src/components/PatientRegistration.jsx:48-52 | an undotted name replaces only its own top-level field |
| Forms.SplitDotted | froentend/src/components/PatientRegistration.jsx:40 | `parent.child` splits into its two halves |
| Forms.DottedChange | froentend/src/components/PatientRegistration.jsx:39-47 | a dotted name sets only that nested key; its siblings and every other top-level field are kept |
| Forms.CleanItems | froentend/src/components/PatientRegistration.jsx:57 | no item is empty or untrimmed, and there are no more items than pieces |
| Forms.ParseList | froentend/src/components/PatientRegistration.jsx:57 | every parsed item is non-empty and trimmed |
| Forms.CleanItemsAppend | froentend/src/components/PatientRegistration.jsx:57 | cleaning works piece by piece in order, so order is kept |
| Forms.CleanItemsOfCleanPieces | froentend/src/components/PatientRegistration.jsx:57 | clean pieces are kept as they are, duplicates included |
| Forms.ParseListOfShownList | froentend/src/components/PatientRegistration.jsx:57 | parsing a list joined with ", " gives the list back, order and duplicates included |
| Forms.HandleArrayInput | froentend/src/components/PatientRegistration.jsx:56-65 | only `medicalHistory` is set, to the old one with `field` replaced by the parsed list |
| Forms.ArrayInputTouchesOnlyField | froentend/src/components/PatientEdit.jsx:39-42 | only `medicalHistory[field]` changes: the other lists and top-level fields are kept |
| Forms.ChosenBloodGroupIsSent | froentend/src/components/PatientRegistration.jsx:186-191 | the group chosen in the select is the blood group the form sends |
| Forms.InitialFormShape | froentend/src/components/PatientRegistration.jsx:8-31 | gender Male, every text empty, the three lists empty; the empty blood group is refused as written and accepted by the corrected rule |
| Forms.UntouchedBloodGroupRefused | froentend/src/components/PatientRegistration.jsx:14 | a registration carrying the untouched form's blood group is answered 400 as written, and 201 by the corrected registration when the body is otherwise valid |
| Forms.NumberOfText | froentend/src/components/PatientEdit.jsx:54 | blank text is the number 0 |
| Forms.NumberOfDigits | froentend/src/components/PatientEdit.jsx:54 | decimal digits read as their value |
| Forms.NumberOfNegated | froentend/src/components/PatientEdit.jsx:54 | a minus sign and digits read as the negated value |
| Forms.NumberOfPrintedInt | froentend/src/components/PatientEdit.jsx:54 | the text of any integer coerces back to that integer |
| Forms.NotANumberIsZero | froentend/src/components/PatientEdit.jsx:54 | a text that is not a number coerces to 0 |
| Forms.BuildPayload | froentend/src/components/PatientEdit.jsx:51-55 | the payload has the form's keys and values, except that a present, non-null `billAmount` becomes its number or 0; the form itself is a value and is not changed |
| Forms.DateInputValue | froentend/src/components/PatientEdit.jsx:111 | the shown date holds no `T` |
| Forms.DateInputOfTimestamp | froentend/src/components/PatientEdit.jsx:111 | a stored timestamp shows as its day, the part before the first `T` |
| Forms.SelectedBillPaid | froentend/src/components/PatientEdit.jsx:154 | the select stores paid exactly for the option shown for a paid bill, and unpaid for the option shown for an unpaid or unset one |
| Forms.SelectRoundTrip | froentend/src/components/PatientEdit.jsx:154 | choosing the option shown reads a paid bill as paid and an unpaid or unset one as unpaid |
| Forms.BillingGateMatchesServer | froentend/src/components/PatientEdit.jsx:142-143 | billing inputs are shown exactly for the Admin and Receptionist roles that the server authorises |
| Replies.FirstMessage | froentend/src/components/PatientView.jsx:140 | the first present, non-empty candidate, else the fallback |
| PatientRoutes.Gatekeep | backend/routes/patientRoutes.js:7-17 | a matched route refuses with 401 or 403 or hands its parameters to its own handler |
| PatientRoutes.Dispatch | backend/routes/patientRoutes.js:7-17 | no route exactly when none applies; otherwise the first route that applies decides |
| PatientRoutes.Skip | backend/routes/patientRoutes.js:7-17 | a route that does not apply is skipped |
| PatientRoutes.FirstApplying | backend/routes/patientRoutes.js:7-17 | the first applying route decides the outcome |
| PatientRoutes.Router.Add | backend/routes/patientRoutes.js:12-17 | a registration goes after every earlier one |
| PatientRoutes.Router.Handle | backend/routes/patientRoutes.js:7-17 | the loop over the routes computes `Dispatch` |
| PatientRoutes.BuildPatientRouter | backend/routes/patientRoutes.js:1-19 | the router holds the seven registrations in source order |
| PatientRoutes.DevUpdateNeedsNoAuth | backend/routes/patientRoutes.js:7-10 | dev-update needs no token: 403 in production, devUpdatePatient otherwise |
| PatientRoutes.RegisterNeedsFrontDesk | backend/routes/patientRoutes.js:12 | `POST /` reaches registerPatient exactly for an Admin or a Receptionist |
| PatientRoutes.UpdateNeedsFrontDesk | backend/routes/patientRoutes.js:17 | `PUT /:id` reaches updatePatient exactly for an Admin or a Receptionist |
| PatientRoutes.ListNeedsAuthOnly | backend/routes/patientRoutes.js:13 | `GET /` needs a token and no role |
| PatientRoutes.SingleGetSkipsFirstThree | backend/routes/patientRoutes.js:7-13 | a single-segment GET skips the first three routes |
| PatientRoutes.PendingCountComesFirst | backend/routes/patientRoutes.js:14-16 | `GET /pending-count` needs only a token and never reaches getPatientById, though `/:id` matches it |
| PatientRoutes.SearchComesFirst | backend/routes/patientRoutes.js:15-16 | `GET /search` needs only a token and never reaches getPatientById |
| PatientRoutes.OtherSegmentIsAnId | backend/routes/patientRoutes.js:16 | any other segment reaches getPatientById as the id, behind a token and no role |
| PatientRoutes.HandlePatientRequest | backend/routes/patientRoutes.js:7-17 | handling on the built router is dispatching on the table |
| Dashboard.FirstFive | froentend/src/components/Dashboard.jsx:31 | the first min(5, n) patients of the list |
| Dashboard.PendingFromList | froentend/src/components/Dashboard.jsx:34-35 | the fallback is the count of listed patients whose `billPaid` is not true |
| Dashboard.ThrownListChangesNothing | froentend/src/components/Dashboard.jsx:67-69 | a thrown list skips the rest and changes nothing |
| Dashboard.TotalPatientsShown | froentend/src/components/Dashboard.jsx:27-30 | `totalPatients` is the server's count after a successful list and is untouched otherwise |
| Dashboard.RecentPatientsShown | froentend/src/components/Dashboard.jsx:31 | the recent patients are the first min(5, n) of a successful list, in order, and are untouched otherwise |
| Dashboard.PendingBillsShown | froentend/src/components/Dashboard.jsx:34-57 | a successful server count wins; failing it, the fallback from a successful list; failing both, the old value |
| Dashboard.TodayAndStaffShown | froentend/src/components/Dashboard.jsx:42-65 | `todayAppointments` and `activeStaff` change only on their own successful answer |
| Dashboard.FallbackAgreesWithServer | froentend/src/components/Dashboard.jsx:34-57 | for one collection, the fallback from the sorted list equals the server's pending count, so the card is the same either way |
| Dashboard.TotalIsCollectionSize | froentend/src/components/Dashboard.jsx:27-30 | after a successful list the total is the collection's size |
| Dashboard.DashboardPage.FetchDashboardData | froentend/src/components/Dashboard.jsx:23-74 | the step-by-step updates, each setting one key of the spread stats, give `Refreshed`, and loading ends |
| PatientView.NewStatus | froentend/src/components/PatientView.jsx:119 | the new status is true exactly when the flag is not true, unset included |
| PatientView.ToggleButton | froentend/src/components/PatientView.jsx:103-150 | the button exists exactly for front-desk roles; its caption is "Mark Paid" or "Mark Unpaid" by the status a click sets, and "Marking Paid..." or "Marking Unpaid..." while the request is in flight |
| PatientView.ToggleOfferedToFrontDesk | froentend/src/components/PatientView.jsx:103-104 | the toggle is offered exactly to the roles the server lets update a patient |
| PatientView.FailureMessage | froentend/src/components/PatientView.jsx:135-140 | the server's message, else the thrown error's own message, else the stock text |
| PatientView.Merged | froentend/src/components/PatientView.jsx:131 | the server's record, or the old one with only `billPaid` set to the new status |
| PatientView.ServerAgreesWithFallback | froentend/src/components/PatientView.jsx:119-131 | for a stored patient the server answers 200 with the fallback record, apart from `updatedAt` |
| PatientView.ToggleTwice | froentend/src/components/PatientView.jsx:119 | a second toggle undoes the first |
| PatientView.PatientPage.BeginToggle | froentend/src/components/PatientView.jsx:108-125 | both messages cleared; without a token an error and no payload; with one the payload `{billPaid: !billPaid}` and `updating` true |
| PatientView.PatientPage.FinishToggle | froentend/src/components/PatientView.jsx:127-145 | success shows the merged record and message and announces the change; failure sets the error and keeps the record; `updating` ends false |
| PatientView.PatientPage.SuccessTimerFired | froentend/src/components/PatientView.jsx:144 | the timer clears the success message only |

## Left out

- Concurrency. The count-then-format race on MRNs and doctor codes is not modelled: requests
  are sequential, so uniqueness is stated for calls that do not interleave.
- I/O and the runtime: the database driver, connections, logging, timers (their callbacks
  are methods) and the browser's event dispatch. `FinishToggle` returns whether it announces
  `patientUpdated`; the other pages' refresh is not modelled.
- Real `Date` semantics: the year mapping of `new Date(y, m, d)` for years 0-99, daylight
  saving, overflow of day numbers, and the generic parse of `new Date(text)`. The two date
  operations and MongoDB's `$dateToString` are function parameters. `RendersLocalDays` states
  what "server-local" is taken to mean.
- Search: the query is used by MongoDB as a regular expression; the model reads it as a
  substring. Its `i` option folds case for every script; the model folds ASCII letters only.
- SetEmail: `toLowerCase` folds all of Unicode (and can change the length, as for `İ`); the
  model lower-cases ASCII letters only, so "no upper-case letter" is claimed for ASCII.
- FilterPatients: name and MRN are lower-cased for ASCII letters only, for the same reason.
- Applies: Express matches route literals without regard to case; the model folds ASCII
  letters only.
- RegisteredCorrected: only registration has a corrected variant. An empty choice in the
  edit form's select is also refused as written (`EmptyChoiceRefused`). Whether it should
  clear or keep the stored group is not evident, so no corrected update is modelled.
- PatientStore: the collection is a sequence with distinct ids rather than a map from id to
  record; lookup by id is the same.
- Forms.NumberOfText: `Number(text)` is read only for integers (optional sign, decimal
  digits, surrounding blanks); decimals, exponents and hexadecimal text are out, and
  `billAmount` is an integer, not a floating-point number.
- JSON `null` is not distinguished from an absent path in the backend bodies. Spreading a
  non-object gives `{}`.
- The `auth` and `authorize` middleware (middleware/auth.js is not part of this model): a
  missing user is answered 401 and a role outside the list 403.
- URL decoding of route parameters.
- ObjectIds are 24-hex-digit texts. A 12-byte string that also casts is not modelled.
- `populate` is modelled only as present or null. The selected fields are represented by the
  summaries.
- The doctor and appointment routes are not modelled. They have no authentication gate
  (backend/routes/appointmentRoutes.js).
- PatientListView: the first load and the `patientUpdated` listener call fetchPatients; the
  model has the fetch as a method and not the listener.
- Dashboard: a successful list answer always carries `data`. A missing `data` would throw at
  `slice` after `totalPatients` is set; that path is not modelled.
- PatientView: the page's initial fetch is not modelled. The class starts from the loaded
  record.
- Login, the navigation bar, the application's routes, the booking form and the I/O scripts
  are rendering or plumbing. The one rule in the scripts, paid plus pending, is in
  `PatientStore.PendingPlusPaid`.

## Findings

| source | as written | input that shows it | evidently intended | confidence | as-written member | corrected member |
|---|---|---|---|---|---|---|
| backend/models/Patient.js:37-40 | the `bloodGroup` enum accepts only the eight groups or no value, and the registration form starts with `bloodGroup: ''` and sends it unchanged when no group is chosen | registering without choosing a blood group sends `bloodGroup: ''`, which fails the enum and gives 400 | an unchosen blood group is stored as no blood group | not executed | PatientStore.Registered with Schemas.BloodGroupAcceptedAsWritten, shown by PatientStore.EmptyChoiceRefused and Forms.UntouchedBloodGroupRefused | PatientStore.RegisteredCorrected with Schemas.CorrectedBody, shown by PatientStore.EmptyChoiceRegisteredWhenCorrected |
