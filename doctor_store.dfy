/** backend/controllers/doctorController.js over the doctor collection: createDoctor, which
    overwrites the body's `doctorId` with the next code before saving, and getAllDoctors. */
module DoctorStore {
  import opened Wrappers
  import opened Schemas
  import opened Replies
  import Identifiers

  predicate DoctorIdsDistinct(ds: seq<Doctor>)
  {
    forall i, j :: 0 <= i < j < |ds| ==> ds[i].id != ds[j].id
  }

  /** The codes stored so far are DOC0001, DOC0002, ... in insertion order. */
  predicate NumberedDoctors(ds: seq<Doctor>)
  {
    forall i :: 0 <= i < |ds| ==> ds[i].doctorId == Identifiers.NextDoctorId(i)
  }

  /** What the collection keeps true: distinct ids, codes numbered in order, valid
      documents. */
  predicate ValidDoctorStore(ds: seq<Doctor>)
  {
    DoctorIdsDistinct(ds) && NumberedDoctors(ds) && forall i :: 0 <= i < |ds| ==> ValidDoctor(ds[i])
  }

  /** The unique index on `doctorId`. */
  predicate DoctorIdTaken(ds: seq<Doctor>, code: string)
  {
    exists j :: 0 <= j < |ds| && ds[j].doctorId == code
  }

  /** Numbered codes are pairwise distinct. */
  lemma NumberedCodesDistinct(ds: seq<Doctor>)
    requires NumberedDoctors(ds)
    ensures forall i, j :: 0 <= i < j < |ds| ==> ds[i].doctorId != ds[j].doctorId
  {
    forall i, j | 0 <= i < j < |ds| ensures ds[i].doctorId != ds[j].doctorId {
      Identifiers.NextDoctorIdInjective(i, j);
    }
  }

  datatype Outcome = Outcome(reply: Reply<Doctor>, doctors: seq<Doctor>)

  /** The body as createDoctor saves it: `req.body.doctorId` overwritten with the code for
      the current count. */
  function WithNextCode(b: DoctorBody, count: nat): (b': DoctorBody)
    ensures b'.doctorId == Some(Identifiers.NextDoctorId(count))
  {
    b.(doctorId := Some(Identifiers.NextDoctorId(count)))
  }

  /** createDoctor: count, overwrite the code, `new Doctor(body)`, `save()`. A validation
      failure or a taken code answers 400 and stores nothing. */
  function Created(ds: seq<Doctor>, b: DoctorBody, id: string, now: int): (r: Outcome)
    ensures r.reply.status == 201 || r.reply.status == 400
    ensures r.reply.status == 400 ==> r.doctors == ds && r.reply.data == None
    ensures r.reply.status == 201 ==>
      && r.reply.data.Some?
      && r.doctors == ds + [r.reply.data.value]
      && r.reply.data.value.doctorId == Identifiers.NextDoctorId(|ds|)
  {
    var body := WithNextCode(b, |ds|);
    if !DoctorBodyValid(body) then Outcome(Reply(400, None), ds)
    else
      var doctor := NewDoctor(body, id, now);
      if DoctorIdTaken(ds, doctor.doctorId) then Outcome(Reply(400, None), ds)
      else Outcome(Reply(201, Some(doctor)), ds + [doctor])
  }

  /** Whatever `doctorId` the client sends, it is overwritten: the outcome is the one of the
      same body with any other code, or none. */
  lemma ClientCodeIgnored(ds: seq<Doctor>, b: DoctorBody, code: Option<string>, id: string, now: int)
    ensures Created(ds, b.(doctorId := code), id, now) == Created(ds, b, id, now)
  {
    assert WithNextCode(b.(doctorId := code), |ds|) == WithNextCode(b, |ds|);
  }

  /** In a numbered collection the next code is free, so creation succeeds exactly when the
      body validates, and the collection stays numbered: successive creations yield
      DOC0001, DOC0002, ... pairwise distinct. */
  lemma CreatedKeepsNumbered(ds: seq<Doctor>, b: DoctorBody, id: string, now: int)
    requires NumberedDoctors(ds)
    ensures Created(ds, b, id, now).reply.status == 201 <==> DoctorBodyValid(WithNextCode(b, |ds|))
    ensures NumberedDoctors(Created(ds, b, id, now).doctors)
  {
    var code := Identifiers.NextDoctorId(|ds|);
    forall j | 0 <= j < |ds| ensures ds[j].doctorId != code {
      Identifiers.NextDoctorIdInjective(j, |ds|);
    }
    var r := Created(ds, b, id, now);
    if r.reply.status == 201 {
      var qs := r.doctors;
      forall j | 0 <= j < |qs| ensures qs[j].doctorId == Identifiers.NextDoctorId(j) {
        if j < |ds| {
          assert qs[j] == ds[j];
        } else {
          assert qs[j] == r.reply.data.value;
        }
      }
    }
  }

  /** Creating with a fresh ObjectId keeps the collection valid. */
  lemma CreatedKeepsStoreValid(ds: seq<Doctor>, b: DoctorBody, id: string, now: int)
    requires ValidDoctorStore(ds) && IsObjectId(id)
    requires forall i :: 0 <= i < |ds| ==> ds[i].id != id
    ensures ValidDoctorStore(Created(ds, b, id, now).doctors)
  {
    var r := Created(ds, b, id, now);
    if r.reply.status == 201 {
      var d := r.reply.data.value;
      assert ValidDoctor(d) && d.id == id;
      AppendKeepsDoctorStore(ds, d);
    }
  }

  /** Appending a valid document with a fresh id and the next code keeps the collection
      valid. */
  lemma AppendKeepsDoctorStore(ds: seq<Doctor>, d: Doctor)
    requires ValidDoctorStore(ds) && ValidDoctor(d)
    requires d.doctorId == Identifiers.NextDoctorId(|ds|)
    requires forall i :: 0 <= i < |ds| ==> ds[i].id != d.id
    ensures ValidDoctorStore(ds + [d])
  {
    AppendKeepsNumbered(ds, d);
    AppendKeepsDoctorsValid(ds, d);
    AppendKeepsIdsDistinct(ds, d);
  }

  /** The next code appended after numbered codes keeps them numbered. */
  lemma AppendKeepsNumbered(ds: seq<Doctor>, d: Doctor)
    requires NumberedDoctors(ds) && d.doctorId == Identifiers.NextDoctorId(|ds|)
    ensures NumberedDoctors(ds + [d])
  {
    AppendKeepsCodes(ds, d, Identifiers.NextDoctorId);
  }

  /** Codes given by position, for any numbering `code`, survive an append of the code for
      the next position. */
  lemma AppendKeepsCodes(ds: seq<Doctor>, d: Doctor, code: nat -> string)
    requires forall i :: 0 <= i < |ds| ==> ds[i].doctorId == code(i)
    requires d.doctorId == code(|ds|)
    ensures forall i :: 0 <= i < |ds + [d]| ==> (ds + [d])[i].doctorId == code(i)
  {
    var qs := ds + [d];
    forall i | 0 <= i < |qs| ensures qs[i].doctorId == code(i) {
      if i < |ds| {
        assert qs[i] == ds[i];
      }
    }
  }

  /** A valid document appended to valid ones. */
  lemma AppendKeepsDoctorsValid(ds: seq<Doctor>, d: Doctor)
    requires forall i :: 0 <= i < |ds| ==> ValidDoctor(ds[i])
    requires ValidDoctor(d)
    ensures forall i :: 0 <= i < |ds + [d]| ==> ValidDoctor((ds + [d])[i])
  {
    var qs := ds + [d];
    forall i | 0 <= i < |qs| ensures ValidDoctor(qs[i]) {
      if i < |ds| {
        assert qs[i] == ds[i];
      }
    }
  }

  /** A fresh id appended to distinct ones. */
  lemma AppendKeepsIdsDistinct(ds: seq<Doctor>, d: Doctor)
    requires DoctorIdsDistinct(ds)
    requires forall i :: 0 <= i < |ds| ==> ds[i].id != d.id
    ensures DoctorIdsDistinct(ds + [d])
  {
    var qs := ds + [d];
    forall i, j | 0 <= i < j < |qs| ensures qs[i].id != qs[j].id {
      assert qs[i] == ds[i];
      if j < |ds| {
        assert qs[j] == ds[j];
      }
    }
  }

  /** The first doctor created gets DOC0001. */
  lemma FirstDoctorGetsDoc0001(b: DoctorBody, id: string, now: int)
    requires DoctorBodyValid(WithNextCode(b, 0))
    ensures Created([], b, id, now).reply.data == Some(NewDoctor(WithNextCode(b, 0), id, now))
    ensures Created([], b, id, now).reply.data.value.doctorId == "DOC0001"
  {
    CreatedKeepsNumbered([], b, id, now);
    Identifiers.FirstDoctorId();
  }

  /** getAllDoctors: every document in collection order, with a count that is the length of
      the list. */
  function GetAllDoctors(ds: seq<Doctor>): (r: Listing<Doctor>)
    ensures r.count == |r.data| && r.data == ds
  {
    ListingOf(ds)
  }

  /** findById over the doctors. */
  function IndexOfDoctor(ds: seq<Doctor>, id: string): (r: Option<nat>)
    ensures r.Some? ==> r.value < |ds| && ds[r.value].id == id
    ensures r.None? <==> forall i :: 0 <= i < |ds| ==> ds[i].id != id
  {
    if ds == [] then None
    else if ds[0].id == id then Some(0)
    else
      var rest := IndexOfDoctor(ds[1..], id);
      assert forall i :: 1 <= i < |ds| ==> ds[i] == ds[1..][i - 1];
      if rest.Some? then Some(rest.value + 1) else None
  }

  /** The doctors collection as the controller changes it. */
  class DoctorCollection {
    var doctors: seq<Doctor>

    ghost predicate Valid()
      reads this
    {
      ValidDoctorStore(doctors)
    }

    constructor()
      ensures doctors == [] && Valid()
    {
      doctors := [];
    }

    /** createDoctor, with `id` the fresh ObjectId the driver assigns. */
    method CreateDoctor(b: DoctorBody, id: string, now: int) returns (reply: Reply<Doctor>)
      requires Valid() && IsObjectId(id)
      requires forall i :: 0 <= i < |doctors| ==> doctors[i].id != id
      modifies this
      ensures Valid()
      ensures Outcome(reply, doctors) == Created(old(doctors), b, id, now)
    {
      CreatedKeepsStoreValid(doctors, b, id, now);
      var count := |doctors|;
      var body := b.(doctorId := Some(Identifiers.NextDoctorId(count)));
      if !DoctorBodyValid(body) {
        return Reply(400, None);
      }
      var doctor := NewDoctor(body, id, now);
      if DoctorIdTaken(doctors, doctor.doctorId) {
        return Reply(400, None);
      }
      doctors := doctors + [doctor];
      reply := Reply(201, Some(doctor));
    }
  }
}
