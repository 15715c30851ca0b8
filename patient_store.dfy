/** backend/controllers/patientController.js over the patient collection: registration with
    the pre-save MRN hook and the unique MRN index, the partial update by id (also reached
    through the development-only route), and the read-only queries (by id, all, search,
    pending bills). The collection is a sequence of documents in insertion order. */
module PatientStore {
  import opened Wrappers
  import opened Text
  import opened Seqs
  import opened Schemas
  import opened Replies
  import Identifiers

  // ---------------------------------------------------------------- the collection

  predicate IdsDistinct(ps: seq<Patient>)
  {
    forall i, j :: 0 <= i < j < |ps| ==> ps[i].id != ps[j].id
  }

  /** The unique index on `mrn`. */
  predicate MrnsDistinct(ps: seq<Patient>)
  {
    forall i, j :: 0 <= i < j < |ps| ==> ps[i].mrn != ps[j].mrn
  }

  /** What the collection keeps true: distinct ids, distinct MRNs, valid documents. */
  predicate ValidStore(ps: seq<Patient>)
  {
    IdsDistinct(ps) && MrnsDistinct(ps) && forall i :: 0 <= i < |ps| ==> ValidPatient(ps[i])
  }

  /** `findById`: where the document with this id is, if there is one. */
  function IndexOfId(ps: seq<Patient>, id: string): (r: Option<nat>)
    ensures r.Some? ==> r.value < |ps| && ps[r.value].id == id
    ensures r.None? <==> forall i :: 0 <= i < |ps| ==> ps[i].id != id
  {
    if ps == [] then None
    else if ps[0].id == id then Some(0)
    else
      var rest := IndexOfId(ps[1..], id);
      assert forall i :: 1 <= i < |ps| ==> ps[i] == ps[1..][i - 1];
      if rest.Some? then Some(rest.value + 1) else None
  }

  /** With distinct ids, the index found is the only one holding the id. */
  lemma IndexOfIdUnique(ps: seq<Patient>, id: string, k: nat)
    requires IdsDistinct(ps) && k < |ps| && ps[k].id == id
    ensures IndexOfId(ps, id) == Some(k)
  {
    var r := IndexOfId(ps, id);
    assert r.Some? && ps[r.value].id == ps[k].id;
  }

  predicate MrnTaken(ps: seq<Patient>, mrn: string)
  {
    exists j :: 0 <= j < |ps| && ps[j].mrn == mrn
  }

  /** Some document other than the one at `i` holds `mrn`. */
  predicate MrnTakenByOther(ps: seq<Patient>, mrn: string, i: nat)
  {
    exists j :: 0 <= j < |ps| && j != i && ps[j].mrn == mrn
  }

  /** The reply of a store operation and the collection afterwards. */
  datatype Outcome = Outcome(reply: Reply<Patient>, patients: seq<Patient>)

  // ---------------------------------------------------------------- registration

  /** The MRN a new document carries once the pre-save hook has run, `count` documents being
      stored. */
  function AssignedMrn(b: PatientBody, count: nat): string
  {
    Identifiers.PreSaveMrn(true, Some(b.mrn.GetOr("")), count).value
  }

  /** registerPatient: `new Patient(body)`; `save()` runs validation first, then the pre-save
      hook, which reads the count and assigns the MRN, then the insert, which the unique
      index refuses when the MRN is taken. Every failure answers 400 and stores nothing. */
  function Registered(ps: seq<Patient>, b: PatientBody, id: string, now: int): (r: Outcome)
    ensures r.reply.status == 201 || r.reply.status == 400
    ensures r.reply.status == 201 <==> PatientBodyValid(b) && !MrnTaken(ps, AssignedMrn(b, |ps|))
    ensures r.reply.status == 201 ==>
      && r.reply.data.Some?
      && r.patients == ps + [r.reply.data.value]
      && r.reply.data.value.mrn == AssignedMrn(b, |ps|) != ""
      && r.reply.data == Some(NewPatient(b, id, now).(mrn := AssignedMrn(b, |ps|)))
    ensures r.reply.status == 400 ==> r.patients == ps && r.reply.data == None
  {
    if !PatientBodyValid(b) then Outcome(Reply(400, None), ps)
    else
      var saved := NewPatient(b, id, now).(mrn := AssignedMrn(b, |ps|));
      if MrnTaken(ps, saved.mrn) then Outcome(Reply(400, None), ps)
      else Outcome(Reply(201, Some(saved)), ps + [saved])
  }

  /** A registration without an MRN receives `"MRN"` and `count + 1` in six zero-padded
      digits; one carrying a non-empty MRN keeps it. */
  lemma RegisteredMrn(ps: seq<Patient>, b: PatientBody, id: string, now: int)
    requires Registered(ps, b, id, now).reply.status == 201
    ensures b.mrn.None? || b.mrn == Some("") ==>
      Registered(ps, b, id, now).reply.data.value.mrn == Identifiers.NextMrn(|ps|)
    ensures b.mrn.Some? && b.mrn != Some("") ==>
      Registered(ps, b, id, now).reply.data.value.mrn == b.mrn.value
  {
  }

  /** Registering with a fresh ObjectId keeps the collection valid. */
  lemma RegisteredKeepsStoreValid(ps: seq<Patient>, b: PatientBody, id: string, now: int)
    requires ValidStore(ps) && IsObjectId(id)
    requires forall i :: 0 <= i < |ps| ==> ps[i].id != id
    ensures ValidStore(Registered(ps, b, id, now).patients)
  {
    var r := Registered(ps, b, id, now);
    if r.reply.status == 201 {
      var saved := r.reply.data.value;
      assert saved == NewPatient(b, id, now).(mrn := AssignedMrn(b, |ps|));
      NewPatientWithMrn(b, id, now, AssignedMrn(b, |ps|));
      AppendKeepsValid(ps, saved);
    }
  }

  lemma NewPatientWithMrn(b: PatientBody, id: string, now: int, mrn: string)
    requires PatientBodyValid(b) && IsObjectId(id)
    ensures ValidPatient(NewPatient(b, id, now).(mrn := mrn))
    ensures NewPatient(b, id, now).(mrn := mrn).id == id
  {
    assert ValidPatient(NewPatient(b, id, now));
  }

  /** Appending a valid document whose id and MRN are new keeps the collection valid. */
  lemma AppendKeepsValid(ps: seq<Patient>, p: Patient)
    requires ValidStore(ps) && ValidPatient(p)
    requires forall i :: 0 <= i < |ps| ==> ps[i].id != p.id
    requires !MrnTaken(ps, p.mrn)
    ensures ValidStore(ps + [p])
  {
    AppendKeepsPatientsValid(ps, p);
    AppendKeepsKeysDistinct(ps, p);
  }

  /** A valid document appended to valid ones. */
  lemma AppendKeepsPatientsValid(ps: seq<Patient>, p: Patient)
    requires forall i :: 0 <= i < |ps| ==> ValidPatient(ps[i])
    requires ValidPatient(p)
    ensures forall i :: 0 <= i < |ps + [p]| ==> ValidPatient((ps + [p])[i])
  {
    var qs := ps + [p];
    forall i | 0 <= i < |qs| ensures ValidPatient(qs[i]) {
      if i < |ps| {
        assert qs[i] == ps[i];
      }
    }
  }

  /** A new id and a new MRN appended to distinct ones. */
  lemma AppendKeepsKeysDistinct(ps: seq<Patient>, p: Patient)
    requires IdsDistinct(ps) && MrnsDistinct(ps)
    requires forall i :: 0 <= i < |ps| ==> ps[i].id != p.id
    requires !MrnTaken(ps, p.mrn)
    ensures IdsDistinct(ps + [p]) && MrnsDistinct(ps + [p])
  {
    var qs := ps + [p];
    forall j | 0 <= j < |ps| ensures ps[j].mrn != p.mrn {
    }
    forall i, j | 0 <= i < j < |qs| ensures qs[i].id != qs[j].id && qs[i].mrn != qs[j].mrn {
      assert qs[i] == ps[i];
      if j < |ps| {
        assert qs[j] == ps[j];
      }
    }
  }

  /** Replacing a document by a valid one with the same id, whose MRN no other document
      holds, keeps the collection valid. */
  lemma ReplaceKeepsValid(ps: seq<Patient>, i: nat, q: Patient)
    requires ValidStore(ps) && i < |ps| && ValidPatient(q) && q.id == ps[i].id
    requires !MrnTakenByOther(ps, q.mrn, i)
    ensures ValidStore(ps[i := q])
  {
    var qs := ps[i := q];
    forall j, k | 0 <= j < k < |qs| ensures qs[j].id != qs[k].id && qs[j].mrn != qs[k].mrn {
      if j == i {
        assert qs[k] == ps[k];
      } else if k == i {
        assert qs[j] == ps[j];
      }
    }
  }

  /** In a collection with distinct MRNs no other document holds the MRN at `i`. */
  lemma OwnMrnNotTakenByOther(ps: seq<Patient>, i: nat)
    requires MrnsDistinct(ps) && i < |ps|
    ensures !MrnTakenByOther(ps, ps[i].mrn, i)
  {
    forall j | 0 <= j < |ps| && j != i ensures ps[j].mrn != ps[i].mrn {
      if j < i {
        assert ps[j].mrn != ps[i].mrn;
      } else {
        assert ps[i].mrn != ps[j].mrn;
      }
    }
  }

  /** The MRNs stored so far are MRN000001, MRN000002, ... in insertion order. */
  predicate NumberedMrns(ps: seq<Patient>)
  {
    forall i :: 0 <= i < |ps| ==> ps[i].mrn == Identifiers.NextMrn(i)
  }

  /** Registrations made one after another, none carrying an MRN, never collide on the MRN:
      each valid one succeeds and receives the next number, so the MRNs stay numbered in
      order and pairwise distinct. */
  lemma SuccessiveRegistrations(ps: seq<Patient>, b: PatientBody, id: string, now: int)
    requires NumberedMrns(ps)
    requires PatientBodyValid(b) && (b.mrn.None? || b.mrn == Some(""))
    ensures Registered(ps, b, id, now).reply.status == 201
    ensures Registered(ps, b, id, now).reply.data.value.mrn == Identifiers.NextMrn(|ps|)
    ensures NumberedMrns(Registered(ps, b, id, now).patients)
    ensures MrnsDistinct(Registered(ps, b, id, now).patients)
  {
    assert AssignedMrn(b, |ps|) == Identifiers.NextMrn(|ps|);
    NextMrnIsFree(ps);
    var r := Registered(ps, b, id, now);
    NumberedAppend(ps, r.reply.data.value);
    NumberedMrnsDistinct(r.patients);
  }

  /** The next MRN is held by no document of a numbered collection. */
  lemma NextMrnIsFree(ps: seq<Patient>)
    requires NumberedMrns(ps)
    ensures !MrnTaken(ps, Identifiers.NextMrn(|ps|))
  {
    forall j | 0 <= j < |ps| ensures ps[j].mrn != Identifiers.NextMrn(|ps|) {
      Identifiers.NextMrnInjective(j, |ps|);
    }
  }

  lemma NumberedAppend(ps: seq<Patient>, p: Patient)
    requires NumberedMrns(ps) && p.mrn == Identifiers.NextMrn(|ps|)
    ensures NumberedMrns(ps + [p])
  {
    var qs := ps + [p];
    forall j | 0 <= j < |qs| ensures qs[j].mrn == Identifiers.NextMrn(j) {
      if j < |ps| {
        assert qs[j] == ps[j];
        assert ps[j].mrn == Identifiers.NextMrn(j);
      } else {
        assert qs[j] == p;
      }
    }
  }

  /** Numbered MRNs are pairwise distinct. */
  lemma NumberedMrnsDistinct(ps: seq<Patient>)
    requires NumberedMrns(ps)
    ensures MrnsDistinct(ps)
  {
    forall i, j | 0 <= i < j < |ps| ensures ps[i].mrn != ps[j].mrn {
      Identifiers.NextMrnInjective(i, j);
    }
  }

  // ---------------------------------------------------------------- update

  /** updatePatient: `findByIdAndUpdate(id, body, { new: true, runValidators: true })`. The
      id and the body are cast and the update validators run before the document is looked
      up; a cast or validation failure, or an MRN another document holds, answers 400, an
      unknown id 404, and all of these change nothing. On success only the document with
      that id changes, and the reply carries it as updated. */
  function Updated(ps: seq<Patient>, idText: string, b: PatientBody, now: int): (r: Outcome)
    ensures r.reply.status in {200, 400, 404}
    ensures r.reply.status != 200 ==> r.patients == ps && r.reply.data == None
    ensures r.reply.status == 404 <==>
      IsObjectIdText(idText) && PatchValid(b) && IndexOfId(ps, CastObjectId(idText)).None?
    ensures r.reply.status == 200 <==>
      && IsObjectIdText(idText) && PatchValid(b)
      && IndexOfId(ps, CastObjectId(idText)).Some?
      && !(b.mrn.Some? && MrnTakenByOther(ps, b.mrn.value, IndexOfId(ps, CastObjectId(idText)).value))
  {
    if !IsObjectIdText(idText) || !PatchValid(b) then Outcome(Reply(400, None), ps)
    else
      var found := IndexOfId(ps, CastObjectId(idText));
      if found.None? then Outcome(Reply(404, None), ps)
      else
        var i := found.value;
        var q := Patched(ps[i], b, now);
        if b.mrn.Some? && MrnTakenByOther(ps, q.mrn, i) then Outcome(Reply(400, None), ps)
        else Outcome(Reply(200, Some(q)), ps[i := q])
  }

  /** A successful update replaces exactly the document with the given id by the patched
      one, which is also what the reply carries; every other document is unchanged. */
  lemma UpdatedTouchesOnlyTarget(ps: seq<Patient>, idText: string, b: PatientBody, now: int)
    requires Updated(ps, idText, b, now).reply.status == 200
    ensures IsObjectIdText(idText) && PatchValid(b)
    ensures var i := IndexOfId(ps, CastObjectId(idText));
      var r := Updated(ps, idText, b, now);
      && i.Some?
      && |r.patients| == |ps|
      && r.patients[i.value] == Patched(ps[i.value], b, now)
      && r.reply.data == Some(r.patients[i.value])
      && (forall j :: 0 <= j < |ps| && j != i.value ==> r.patients[j] == ps[j])
  {
  }

  /** An update keeps the collection valid. */
  lemma UpdatedKeepsStoreValid(ps: seq<Patient>, idText: string, b: PatientBody, now: int)
    requires ValidStore(ps)
    ensures ValidStore(Updated(ps, idText, b, now).patients)
  {
    var r := Updated(ps, idText, b, now);
    if r.reply.status == 200 {
      var i := IndexOfId(ps, CastObjectId(idText)).value;
      var q := Patched(ps[i], b, now);
      PatchedValid(ps[i], b, now);
      PatchedKeepsAbsentPaths(ps[i], b, now);
      if b.mrn.None? {
        OwnMrnNotTakenByOther(ps, i);
      }
      ReplaceKeepsValid(ps, i, q);
    }
  }

  /** Sending the same update twice leaves the collection as sending it once does, and
      answers the same. */
  lemma UpdatedTwice(ps: seq<Patient>, idText: string, b: PatientBody, now: int)
    ensures var once := Updated(ps, idText, b, now);
      Updated(once.patients, idText, b, now) == once
  {
    var once := Updated(ps, idText, b, now);
    if once.reply.status == 200 {
      var id := CastObjectId(idText);
      var i := IndexOfId(ps, id).value;
      var q := Patched(ps[i], b, now);
      PatchedKeepsAbsentPaths(ps[i], b, now);
      IndexOfIdAfterReplace(ps, i, q, id);
      PatchedIdempotent(ps[i], b, now);
      if b.mrn.Some? {
        ReplacedMrnStaysFree(ps, i, q);
      }
      assert once.patients[i := Patched(once.patients[i], b, now)] == once.patients;
    }
  }

  /** After a document is replaced by one with the same id, the id is still found there. */
  lemma {:induction false} IndexOfIdAfterReplace(ps: seq<Patient>, i: nat, q: Patient, id: string)
    requires IndexOfId(ps, id) == Some(i) && q.id == id
    ensures IndexOfId(ps[i := q], id) == Some(i)
  {
    if i > 0 {
      assert ps[i := q][1..] == ps[1..][i - 1 := q];
      IndexOfIdAfterReplace(ps[1..], i - 1, q, id);
    }
  }

  /** An MRN no other document held before a replacement at `i` is still held by none. */
  lemma ReplacedMrnStaysFree(ps: seq<Patient>, i: nat, q: Patient)
    requires i < |ps| && !MrnTakenByOther(ps, q.mrn, i)
    ensures !MrnTakenByOther(ps[i := q], q.mrn, i)
  {
    var qs := ps[i := q];
    forall j | 0 <= j < |qs| && j != i ensures qs[j].mrn != q.mrn {
      assert qs[j] == ps[j];
    }
  }

  /** Marking a stored patient paid sets `billPaid` and leaves `billAmount` as it was. */
  lemma MarkPaidKeepsAmount(ps: seq<Patient>, idText: string, now: int, i: nat)
    requires IdsDistinct(ps) && IsObjectIdText(idText) && i < |ps| && ps[i].id == CastObjectId(idText)
    ensures var r := Updated(ps, idText, BillPaidBody(true), now);
      && r.reply.status == 200
      && r.patients[i].billPaid == Some(true)
      && r.patients[i].billAmount == ps[i].billAmount
  {
    IndexOfIdUnique(ps, CastObjectId(idText), i);
    Schemas.MarkPaidKeepsAmount(ps[i], now);
  }

  /** devUpdatePatient: refused with 403 in production, an update otherwise. */
  function DevUpdated(ps: seq<Patient>, production: bool, idText: string, b: PatientBody, now: int): (r: Outcome)
    ensures production ==> r == Outcome(Reply(403, None), ps)
    ensures !production ==> r == Updated(ps, idText, b, now)
  {
    if production then Outcome(Reply(403, None), ps) else Updated(ps, idText, b, now)
  }

  // ---------------------------------------------------------------- the empty blood-group choice

  /** As written, a body carrying the empty blood-group choice fails the enum: registering
      and updating both answer 400 and store nothing. */
  lemma EmptyChoiceRefused(ps: seq<Patient>, b: PatientBody, id: string, idText: string, now: int)
    requires b.bloodGroup == Some("")
    ensures Registered(ps, b, id, now) == Outcome(Reply(400, None), ps)
    ensures Updated(ps, idText, b, now) == Outcome(Reply(400, None), ps)
  {
    EmptyBloodGroup(b.bloodGroup);
  }

  /** registerPatient with the corrected reading: the empty blood-group choice is read as no
      blood group before validation. Any other body is registered exactly as before. */
  function RegisteredCorrected(ps: seq<Patient>, b: PatientBody, id: string, now: int): (r: Outcome)
    ensures r.reply.status == 201 <==> PatientBodyValid(CorrectedBody(b)) && !MrnTaken(ps, AssignedMrn(b, |ps|))
    ensures r.reply.status == 201 ==>
      && r.reply.data.Some?
      && r.patients == ps + [r.reply.data.value]
      && r.reply.data.value.bloodGroup == StoredBloodGroup(b.bloodGroup)
    ensures r.reply.status != 201 ==> r.patients == ps
    ensures b.bloodGroup != Some("") ==> r == Registered(ps, b, id, now)
  {
    assert AssignedMrn(CorrectedBody(b), |ps|) == AssignedMrn(b, |ps|);
    Registered(ps, CorrectedBody(b), id, now)
  }

  /** With the corrected reading, a body that is valid but for its empty blood-group choice
      is registered, with no blood group. */
  lemma EmptyChoiceRegisteredWhenCorrected(ps: seq<Patient>, b: PatientBody, id: string, now: int)
    requires b.bloodGroup == Some("")
    requires PatientBodyValid(b.(bloodGroup := None)) && !MrnTaken(ps, AssignedMrn(b, |ps|))
    ensures RegisteredCorrected(ps, b, id, now).reply.status == 201
    ensures RegisteredCorrected(ps, b, id, now).reply.data.value.bloodGroup == None
  {
    assert CorrectedBody(b) == b.(bloodGroup := None);
  }

  /** The corrected registration keeps the collection valid, like the one as written. */
  lemma RegisteredCorrectedKeepsStoreValid(ps: seq<Patient>, b: PatientBody, id: string, now: int)
    requires ValidStore(ps) && IsObjectId(id)
    requires forall i :: 0 <= i < |ps| ==> ps[i].id != id
    ensures ValidStore(RegisteredCorrected(ps, b, id, now).patients)
  {
    RegisteredKeepsStoreValid(ps, CorrectedBody(b), id, now);
  }

  // ---------------------------------------------------------------- queries

  /** getPatientById: 500 for text that does not cast to an ObjectId (the CastError is
      caught as a server error), 404 when no document has the id, else the document. */
  function GetById(ps: seq<Patient>, idText: string): (r: Reply<Patient>)
    ensures r.status in {200, 404, 500}
    ensures r.status == 500 <==> !IsObjectIdText(idText)
    ensures r.status == 404 <==> IsObjectIdText(idText) && forall i :: 0 <= i < |ps| ==> ps[i].id != CastObjectId(idText)
    ensures r.status == 200 ==> r.data.Some? && r.data.value in ps && r.data.value.id == CastObjectId(idText)
  {
    if !IsObjectIdText(idText) then Reply(500, None)
    else
      var found := IndexOfId(ps, CastObjectId(idText));
      if found.None? then Reply(404, None) else Reply(200, Some(ps[found.value]))
  }

  function CreatedAt(p: Patient): int
  {
    p.createdAt
  }

  /** getAllPatients: `find().sort({ createdAt: -1 })`, every document, newest first, and a
      count that is the length of the list. */
  function GetAllPatients(ps: seq<Patient>): (r: Listing<Patient>)
    ensures r.count == |r.data| == |ps|
    ensures SortedDescBy(r.data, CreatedAt)
    ensures multiset(r.data) == multiset(ps)
  {
    ListingOf(SortDescBy(ps, CreatedAt))
  }

  /** The search filter: the MRN or the name contains the query, ignoring case. */
  predicate SearchMatches(p: Patient, query: string)
  {
    Contains(ToLower(p.mrn), ToLower(query)) || Contains(ToLower(p.name), ToLower(query))
  }

  /** searchPatient: the documents whose MRN or name matches, each once, in collection order. */
  function Search(ps: seq<Patient>, query: string): (r: Listing<Patient>)
    ensures r.count == |r.data|
    ensures forall p :: p in r.data <==> p in ps && SearchMatches(p, query)
    ensures IsSubsequence(r.data, ps)
    ensures IdsDistinct(ps) ==> IdsDistinct(r.data)
  {
    var found := Filter(ps, p => SearchMatches(p, query));
    FilterKeepsIdsDistinct(ps, p => SearchMatches(p, query));
    ListingOf(found)
  }

  /** Filtering keeps ids distinct. */
  lemma {:induction false} FilterKeepsIdsDistinct(ps: seq<Patient>, keep: Patient -> bool)
    ensures IdsDistinct(ps) ==> IdsDistinct(Filter(ps, keep))
  {
    if ps != [] && IdsDistinct(ps) {
      var rest := Filter(ps[1..], keep);
      TailIdsDistinct(ps);
      FilterKeepsIdsDistinct(ps[1..], keep);
      if keep(ps[0]) {
        HeadIdUnique(ps);
        ConsKeepsIdsDistinct(ps[0], rest, ps[1..]);
      }
    }
  }

  lemma TailIdsDistinct(ps: seq<Patient>)
    requires IdsDistinct(ps) && ps != []
    ensures IdsDistinct(ps[1..])
  {
    forall i, j | 0 <= i < j < |ps[1..]| ensures ps[1..][i].id != ps[1..][j].id {
      assert ps[1..][i] == ps[i + 1] && ps[1..][j] == ps[j + 1];
    }
  }

  lemma HeadIdUnique(ps: seq<Patient>)
    requires IdsDistinct(ps) && ps != []
    ensures forall x :: x in ps[1..] ==> x.id != ps[0].id
  {
    forall x | x in ps[1..] ensures x.id != ps[0].id {
      var k :| 0 <= k < |ps[1..]| && ps[1..][k] == x;
      assert ps[k + 1] == x;
    }
  }

  /** A document put in front of distinct ones drawn from `pool`, none sharing its id. */
  lemma ConsKeepsIdsDistinct(p: Patient, rest: seq<Patient>, pool: seq<Patient>)
    requires IdsDistinct(rest)
    requires forall x :: x in rest ==> x in pool
    requires forall x :: x in pool ==> x.id != p.id
    ensures IdsDistinct([p] + rest)
  {
    var r := [p] + rest;
    forall i, j | 0 <= i < j < |r| ensures r[i].id != r[j].id {
      assert r[j] == rest[j - 1] && rest[j - 1] in rest;
      if i > 0 {
        assert r[i] == rest[i - 1];
      }
    }
  }

  /** The match is on substrings, not on MRN numbers: a query reading "mrn00001" in lower
      case has one zero too few to occur in "mrn000001", the lower-cased first generated MRN
      (`Identifiers.FirstMrn`), so it finds that patient only through the name. */
  lemma ShortQueryMissesFirstMrn(p: Patient, query: string)
    requires ToLower(p.mrn) == "mrn000001" && ToLower(query) == "mrn00001"
    ensures SearchMatches(p, query) <==> Contains(ToLower(p.name), ToLower(query))
  {
    var s, q := "mrn000001", "mrn00001";
    assert s[7] != q[7];
    assert !StartsWith(s, q);
    assert s[1..][0] != q[0];
    assert !StartsWith(s[1..], q);
    assert !Contains(s[1..][1..], q);
  }

  /** Bills not marked paid, a missing `billPaid` included: `{ billPaid: { $ne: true } }`. */
  predicate Pending(p: Patient)
  {
    p.billPaid != Some(true)
  }

  predicate Paid(p: Patient)
  {
    p.billPaid == Some(true)
  }

  /** getPendingCount: how many documents have a pending bill. */
  function PendingCount(ps: seq<Patient>): (n: nat)
    ensures n == |Filter(ps, Pending)|
  {
    CountIf(ps, Pending)
  }

  /** The paid count of backend/scripts/checkBills.js: `{ billPaid: true }`. */
  function PaidCount(ps: seq<Patient>): (n: nat)
    ensures n == |Filter(ps, Paid)|
  {
    CountIf(ps, Paid)
  }

  /** Every patient is either paid or pending, never both. */
  lemma PendingPlusPaid(ps: seq<Patient>)
    ensures PendingCount(ps) + PaidCount(ps) == |ps|
  {
    CountIfComplement(ps, Paid, Pending);
  }

  // ---------------------------------------------------------------- the class

  /** The patients collection as the controller changes it. */
  class PatientCollection {
    var patients: seq<Patient>

    ghost predicate Valid()
      reads this
    {
      ValidStore(patients)
    }

    constructor()
      ensures patients == [] && Valid()
    {
      patients := [];
    }

    /** registerPatient, with `id` the fresh ObjectId the driver assigns. */
    method Register(b: PatientBody, id: string, now: int) returns (reply: Reply<Patient>)
      requires Valid() && IsObjectId(id)
      requires forall i :: 0 <= i < |patients| ==> patients[i].id != id
      modifies this
      ensures Valid()
      ensures Outcome(reply, patients) == Registered(old(patients), b, id, now)
    {
      RegisteredKeepsStoreValid(patients, b, id, now);
      if !PatientBodyValid(b) {
        return Reply(400, None);
      }
      var doc := NewPatient(b, id, now);
      var count := |patients|;
      doc := doc.(mrn := Identifiers.PreSaveMrn(true, Some(doc.mrn), count).value);
      if MrnTaken(patients, doc.mrn) {
        return Reply(400, None);
      }
      patients := patients + [doc];
      reply := Reply(201, Some(doc));
    }

    /** updatePatient. */
    method Update(idText: string, b: PatientBody, now: int) returns (reply: Reply<Patient>)
      requires Valid()
      modifies this
      ensures Valid()
      ensures Outcome(reply, patients) == Updated(old(patients), idText, b, now)
    {
      UpdatedKeepsStoreValid(patients, idText, b, now);
      if !IsObjectIdText(idText) || !PatchValid(b) {
        return Reply(400, None);
      }
      var found := IndexOfId(patients, CastObjectId(idText));
      if found.None? {
        return Reply(404, None);
      }
      var i := found.value;
      var doc := Patched(patients[i], b, now);
      if b.mrn.Some? && MrnTakenByOther(patients, doc.mrn, i) {
        return Reply(400, None);
      }
      patients := patients[i := doc];
      reply := Reply(200, Some(doc));
    }

    /** devUpdatePatient. */
    method DevUpdate(production: bool, idText: string, b: PatientBody, now: int) returns (reply: Reply<Patient>)
      requires Valid()
      modifies this
      ensures Valid()
      ensures Outcome(reply, patients) == DevUpdated(old(patients), production, idText, b, now)
    {
      if production {
        return Reply(403, None);
      }
      reply := Update(idText, b, now);
    }
  }
}
