/** froentend/src/components/PatientView.jsx: the payment toggle of the patient page. It is
    shown only to the front desk; a click clears the messages, checks for a token, sends
    `{ billPaid: !patient.billPaid }` to `PUT /api/patients/:id` and merges the answer. */
module PatientView {
  import opened Wrappers
  import opened Schemas
  import opened Replies
  import Forms
  import PatientStore

  /** `!patient.billPaid`: a flag that is unset counts as unpaid, so the click marks paid. */
  function NewStatus(p: Patient): (paid: bool)
    ensures paid <==> p.billPaid != Some(true)
    ensures p.billPaid.Some? ==> paid == !p.billPaid.value
  {
    !(p.billPaid == Some(true))
  }

  /** The button, when the stored user may see it: its label names the action a click
      takes, with a progress form while a request is in flight. */
  function ToggleButton(u: Forms.StoredUser, p: Patient, updating: bool): (caption: Option<string>)
    ensures caption.Some? <==> Forms.MayManageBilling(u)
    ensures caption.Some? && !updating ==> caption.value == (if NewStatus(p) then "Mark Paid" else "Mark Unpaid")
    ensures caption.Some? && updating ==> caption.value == (if NewStatus(p) then "Marking Paid..." else "Marking Unpaid...")
  {
    if !Forms.MayManageBilling(u) then None
    else if updating then Some(if p.billPaid == Some(true) then "Marking Unpaid..." else "Marking Paid...")
    else Some(if p.billPaid == Some(true) then "Mark Unpaid" else "Mark Paid")
  }

  /** The button is offered to exactly the roles the server lets update a patient. */
  lemma ToggleOfferedToFrontDesk(u: Forms.StoredUser, p: Patient, updating: bool)
    ensures ToggleButton(u, p, updating).Some? <==> u.User? && u.role.Some? && u.role.value in FrontDeskRoles
  {
    Forms.BillingGateMatchesServer(u);
  }

  /** What `patientAPI.update` gave: a body with its `success`, `data` and `message`, or a
      thrown error with the server's message and the error's own. */
  datatype UpdateAnswer =
    | UpdateAnswered(success: bool, data: Option<Patient>, message: Option<string>)
    | UpdateThrew(serverMessage: Option<string>, errorMessage: Option<string>)
  {
    predicate Succeeded()
    {
      UpdateAnswered? && success
    }
  }

  const NoTokenMessage := "You must be logged in to perform this action. Please login again."
  const UpdateFailedMessage := "Failed to update payment status"
  const UpdatedMessage := "Payment status updated"

  /** The error shown after a failed update: the server's message, else (for a thrown error)
      the error's own, else the stock text. */
  function FailureMessage(a: UpdateAnswer): (e: string)
    ensures e != []
    ensures a.UpdateAnswered? ==> e == (if Truthy(a.message) then a.message.value else UpdateFailedMessage)
    ensures a.UpdateThrew? && Truthy(a.serverMessage) ==> e == a.serverMessage.value
    ensures a.UpdateThrew? && !Truthy(a.serverMessage) && Truthy(a.errorMessage) ==> e == a.errorMessage.value
    ensures a.UpdateThrew? && !Truthy(a.serverMessage) && !Truthy(a.errorMessage) ==> e == UpdateFailedMessage
  {
    match a
    case UpdateAnswered(_, _, message) => FirstMessage([message], UpdateFailedMessage)
    case UpdateThrew(serverMessage, errorMessage) =>
      var r := FirstMessage([serverMessage, errorMessage], UpdateFailedMessage);
      var candidates := [serverMessage, errorMessage];
      assert candidates[0] == serverMessage && candidates[1] == errorMessage;
      assert candidates[1..] == [errorMessage];
      r
  }

  /** The record the page shows after a successful update: the server's, or the old record
      with the new flag when the answer carries none. */
  function Merged(p: Patient, newStatus: bool, data: Option<Patient>): (q: Patient)
    ensures data.Some? ==> q == data.value
    ensures data.None? ==> q.billPaid == Some(newStatus) && q.(billPaid := p.billPaid) == p
  {
    data.GetOr(p.(billPaid := Some(newStatus)))
  }

  /** The server, given the toggle's payload for a stored patient, answers with exactly the
      record the page falls back to, up to `updatedAt`: both have the flag flipped and
      every other field as it was. */
  lemma ServerAgreesWithFallback(ps: seq<Patient>, idText: string, now: int, i: nat)
    requires PatientStore.IdsDistinct(ps) && IsObjectIdText(idText)
    requires i < |ps| && ps[i].id == CastObjectId(idText)
    ensures var r := PatientStore.Updated(ps, idText, BillPaidBody(NewStatus(ps[i])), now);
      && r.reply.status == 200
      && r.reply.data == Some(Merged(ps[i], NewStatus(ps[i]), None).(updatedAt := now))
  {
    PatientStore.IndexOfIdUnique(ps, CastObjectId(idText), i);
    var b := BillPaidBody(NewStatus(ps[i]));
    assert PatchValid(b);
    assert Patched(ps[i], b, now) == ps[i].(billPaid := Some(NewStatus(ps[i])), updatedAt := now);
  }

  /** A second click undoes the first: the new status of the toggled record is the opposite
      one, and two toggles end on the paid state the record started in. */
  lemma ToggleTwice(p: Patient)
    ensures NewStatus(Merged(p, NewStatus(p), None)) == !NewStatus(p)
    ensures Merged(p, NewStatus(p), None).(billPaid := Some(NewStatus(Merged(p, NewStatus(p), None)))).billPaid
      == Some(p.billPaid == Some(true))
  {
  }

  /** The page once fetchPatient has stored the record: the shown patient and the three
      state values the toggle sets. */
  class PatientPage {
    var patient: Patient
    var error: string
    var success: string
    var updating: bool

    constructor(loaded: Patient)
      ensures patient == loaded && error == [] && success == [] && !updating
    {
      patient := loaded;
      error := [];
      success := [];
      updating := false;
    }

    /** The click, up to the request: both messages are cleared; without a token the error
        is set and nothing is sent; with one the payload is the flipped flag and the request
        is in flight. */
    method BeginToggle(token: Option<string>) returns (payload: Option<PatientBody>)
      modifies this
      ensures patient == old(patient) && success == []
      ensures !Truthy(token) ==> payload.None? && error == NoTokenMessage && updating == old(updating)
      ensures Truthy(token) ==> payload == Some(BillPaidBody(NewStatus(patient))) && error == [] && updating
    {
      error := [];
      success := [];
      if token.None? || token.value == [] {
        error := NoTokenMessage;
        return None;
      }
      var newStatus := !(patient.billPaid == Some(true));
      payload := Some(BillPaidBody(newStatus));
      updating := true;
    }

    /** The answer to the request sent with `newStatus`. Success shows the merged record,
        the success message and announces `patientUpdated` to the other pages; failure sets
        the error and keeps the record. The request is over in either case. */
    method FinishToggle(newStatus: bool, answer: UpdateAnswer) returns (announced: bool)
      modifies this
      ensures !updating
      ensures announced <==> answer.Succeeded()
      ensures answer.Succeeded() ==>
        patient == Merged(old(patient), newStatus, answer.data) && success == UpdatedMessage && error == old(error)
      ensures !answer.Succeeded() ==>
        patient == old(patient) && error == FailureMessage(answer) && success == old(success)
    {
      announced := false;
      if answer.UpdateAnswered? {
        if answer.success {
          if answer.data.Some? {
            patient := answer.data.value;
          } else {
            patient := patient.(billPaid := Some(newStatus));
          }
          announced := true;
          success := UpdatedMessage;
        } else {
          error := FailureMessage(answer);
        }
      } else {
        error := FailureMessage(answer);
      }
      updating := false;
    }

    /** The timer set when the request ends: it clears the success message. */
    method SuccessTimerFired()
      modifies this
      ensures success == [] && patient == old(patient) && error == old(error) && updating == old(updating)
    {
      success := [];
    }
  }
}
