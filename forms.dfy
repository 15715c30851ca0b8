/** The patient forms of the front end (froentend/src/components/PatientRegistration.jsx and
    PatientEdit.jsx): the form state is a JSON object, and each change handler builds the
    next state from the previous one with spreads. Both components share the same
    `handleChange` and `handleArrayInput`, modelled once here. */
module Forms {
  import opened Wrappers
  import opened Text
  import opened Schemas
  import PatientStore

  /** A JSON value as the forms hold it. Numbers are integers in this model. */
  datatype Value = Str(s: string) | Num(n: int) | Bool(b: bool) | List(items: seq<string>)
                 | Obj(fields: map<string, Value>) | Null

  type Form = map<string, Value>

  /** `{ ...prev[parent] }`: the fields of an object, or none (spreading `undefined`, `null`
      or a number gives `{}`). */
  function FieldsOf(v: Option<Value>): map<string, Value>
  {
    if v.Some? && v.value.Obj? then v.value.fields else map[]
  }

  function Lookup(form: Form, key: string): Option<Value>
  {
    if key in form then Some(form[key]) else None
  }

  // ---------------------------------------------------------------- handleChange

  /** `handleChange` for an input named `name` with text `value`: a dotted name
      `parent.child` sets one key of the nested object `parent`, keeping its siblings (text
      after a second dot is ignored, as the destructuring takes two pieces); any other name
      sets a top-level field. */
  function HandleChange(form: Form, name: string, value: string): (r: Form)
    ensures r.Keys == form.Keys + {if '.' in name then Split(name, '.')[0] else name}
  {
    if '.' in name then
      SplitHasTwoPieces(name, '.');
      var parts := Split(name, '.');
      var parent, child := parts[0], parts[1];
      form[parent := Obj(FieldsOf(Lookup(form, parent))[child := Str(value)])]
    else
      form[name := Str(value)]
  }

  /** An undotted name replaces only its own top-level field. */
  lemma UndottedChange(form: Form, name: string, value: string)
    requires '.' !in name
    ensures var r := HandleChange(form, name, value);
      && r[name] == Str(value)
      && forall k :: k in form && k != name ==> k in r && r[k] == form[k]
  {
  }

  /** The name `parent.child` splits into its two halves. */
  lemma SplitDotted(parent: string, child: string)
    requires '.' !in parent && '.' !in child
    ensures Split(parent + "." + child, '.') == [parent, child]
  {
    JoinCons(parent, [child], ".");
    SplitJoin([parent, child], '.');
  }

  /** A dotted name `parent.child` sets `child` in `parent` to the text, keeps every sibling
      key of `parent` and every other top-level field. */
  lemma DottedChange(form: Form, parent: string, child: string, value: string)
    requires '.' !in parent && '.' !in child
    ensures var r := HandleChange(form, parent + "." + child, value);
      && parent in r && r[parent].Obj?
      && r[parent].fields.Keys == FieldsOf(Lookup(form, parent)).Keys + {child}
      && r[parent].fields[child] == Str(value)
      && (forall c :: c in FieldsOf(Lookup(form, parent)) && c != child ==>
            r[parent].fields[c] == FieldsOf(Lookup(form, parent))[c])
      && (forall k :: k in form && k != parent ==> k in r && r[k] == form[k])
  {
    var name := parent + "." + child;
    assert name[|parent|] == '.';
    SplitDotted(parent, child);
  }

  // ---------------------------------------------------------------- handleArrayInput

  /** `.map(item => item.trim()).filter(item => item)` over the pieces. */
  function CleanItems(pieces: seq<string>): (items: seq<string>)
    ensures |items| <= |pieces|
    ensures forall i :: 0 <= i < |items| ==> items[i] != [] && Trimmed(items[i])
  {
    if pieces == [] then []
    else
      var t := Trim(pieces[0]);
      (if t == [] then [] else [t]) + CleanItems(pieces[1..])
  }

  /** `value.split(',').map(item => item.trim()).filter(item => item)`. */
  function ParseList(value: string): (items: seq<string>)
    ensures forall i :: 0 <= i < |items| ==> items[i] != [] && Trimmed(items[i])
  {
    CleanItems(Split(value, ','))
  }

  /** Cleaning works piece by piece, in order: the items of two runs of pieces are the
      items of the first followed by those of the second, and nothing merges or drops a
      duplicate. */
  lemma {:induction false} CleanItemsAppend(a: seq<string>, b: seq<string>)
    ensures CleanItems(a + b) == CleanItems(a) + CleanItems(b)
    decreases |a|
  {
    if a != [] {
      assert (a + b)[0] == a[0] && (a + b)[1..] == a[1..] + b;
      var first := if Trim(a[0]) == [] then [] else [Trim(a[0])];
      assert CleanItems(a + b) == first + CleanItems(a[1..] + b);
      assert CleanItems(a) == first + CleanItems(a[1..]);
      CleanItemsAppend(a[1..], b);
    } else {
      assert a + b == b;
    }
  }

  /** A piece that is already a clean item is kept as it is; repeated pieces give
      repeated items. */
  lemma CleanItemsOfCleanPieces(pieces: seq<string>)
    requires forall i :: 0 <= i < |pieces| ==> pieces[i] != [] && Trimmed(pieces[i])
    ensures CleanItems(pieces) == pieces
  {
    if pieces != [] {
      TrimOfTrimmed(pieces[0]);
      CleanItemsOfCleanPieces(pieces[1..]);
    }
  }

  /** Each item behind a space, as `join(', ')` leaves the items after the first. */
  function Spaced(items: seq<string>): (r: seq<string>)
    ensures |r| == |items|
    ensures forall i :: 0 <= i < |items| ==> r[i] == [' '] + items[i]
  {
    if items == [] then [] else [[' '] + items[0]] + Spaced(items[1..])
  }

  /** Joining on ", " is joining the spaced items on ",". */
  lemma {:induction false} JoinSpaced(items: seq<string>)
    requires |items| >= 1
    ensures [' '] + Join(items, ", ") == Join(Spaced(items), ",")
    decreases |items|
  {
    if |items| >= 2 {
      var x, rest := items[0], items[1..];
      JoinFirst(items, ", ");
      JoinSpaced(rest);
      assert Spaced(items) == [[' '] + x] + Spaced(rest);
      JoinCons([' '] + x, Spaced(rest), ",");
      assert [' '] + (x + ", " + Join(rest, ", ")) == ([' '] + x) + "," + ([' '] + Join(rest, ", "));
    }
  }

  /** Cleaning the spaced items gives the items back. */
  lemma {:induction false} CleanSpaced(items: seq<string>)
    requires forall i :: 0 <= i < |items| ==> items[i] != [] && Trimmed(items[i])
    ensures CleanItems(Spaced(items)) == items
    decreases |items|
  {
    if items != [] {
      TrimAfterSpace(items[0]);
      CleanSpaced(items[1..]);
      assert Spaced(items)[1..] == Spaced(items[1..]);
    }
  }

  /** The separator ", " is a comma followed by a space that starts the next piece. */
  lemma CommaSpace(a: string, x: string)
    ensures a + ", " + x == a + "," + ([' '] + x)
  {
  }

  /** `items.join(', ')` is the first item and the spaced others joined on commas. */
  lemma JoinAsPieces(items: seq<string>)
    requires |items| >= 1
    ensures Join(items, ", ") == Join([items[0]] + Spaced(items[1..]), ",")
  {
    var first, rest := items[0], items[1..];
    if |items| >= 2 {
      JoinFirst(items, ", ");
      JoinSpaced(rest);
      JoinCons(first, Spaced(rest), ",");
      CommaSpace(first, Join(rest, ", "));
    } else {
      assert rest == [] && [first] + Spaced(rest) == [first];
    }
  }

  /** None of those pieces holds a comma when no item does. */
  lemma PiecesCommaFree(items: seq<string>)
    requires |items| >= 1
    requires forall i :: 0 <= i < |items| ==> ',' !in items[i]
    ensures forall i :: 0 <= i < |items| ==> ',' !in ([items[0]] + Spaced(items[1..]))[i]
  {
    var pieces := [items[0]] + Spaced(items[1..]);
    forall i | 0 <= i < |pieces| ensures ',' !in pieces[i] {
      if i > 0 {
        assert pieces[i] == [' '] + items[i];
      }
    }
  }

  /** Cleaning those pieces gives the items back. */
  lemma CleanPieces(items: seq<string>)
    requires |items| >= 1
    requires forall i :: 0 <= i < |items| ==> items[i] != [] && Trimmed(items[i])
    ensures CleanItems([items[0]] + Spaced(items[1..])) == items
  {
    CleanItemsAppend([items[0]], Spaced(items[1..]));
    CleanItemsOfCleanPieces([items[0]]);
    CleanSpaced(items[1..]);
  }

  /** The edit form shows a stored list as `list.join(', ')`; parsing that text gives the
      list back, order and duplicates included, for items that are trimmed, non-empty and
      free of commas (as every parsed list's items are, apart from commas). */
  lemma ParseListOfShownList(items: seq<string>)
    requires forall i :: 0 <= i < |items| ==> items[i] != [] && Trimmed(items[i]) && ',' !in items[i]
    ensures ParseList(Join(items, ", ")) == items
  {
    if items == [] {
      assert Split([], ',') == [[]];
    } else {
      var pieces := [items[0]] + Spaced(items[1..]);
      JoinAsPieces(items);
      PiecesCommaFree(items);
      SplitJoin(pieces, ',');
      CleanPieces(items);
    }
  }

  /** `handleArrayInput(field, value)`: `medicalHistory[field]` becomes the parsed list; the
      other keys of `medicalHistory` and every other top-level field are kept. */
  function HandleArrayInput(form: Form, field: string, value: string): (r: Form)
    ensures r.Keys == form.Keys + {"medicalHistory"}
    ensures r["medicalHistory"] == Obj(FieldsOf(Lookup(form, "medicalHistory"))[field := List(ParseList(value))])
  {
    form["medicalHistory" := Obj(FieldsOf(Lookup(form, "medicalHistory"))[field := List(ParseList(value))])]
  }

  /** Only `medicalHistory[field]` changes. */
  lemma ArrayInputTouchesOnlyField(form: Form, field: string, value: string)
    ensures var r := HandleArrayInput(form, field, value);
      && (forall k :: k in form && k != "medicalHistory" ==> r[k] == form[k])
      && (forall f :: f in FieldsOf(Lookup(form, "medicalHistory")) && f != field ==>
            r["medicalHistory"].fields[f] == FieldsOf(Lookup(form, "medicalHistory"))[f])
      && r["medicalHistory"].fields[field] == List(ParseList(value))
  {
  }

  // ---------------------------------------------------------------- the registration form

  /** The initial state of the registration form. */
  const InitialForm: Form := map[
    "name" := Str(""), "email" := Str(""), "phone" := Str(""), "dateOfBirth" := Str(""),
    "gender" := Str("Male"), "bloodGroup" := Str(""),
    "address" := Obj(map["street" := Str(""), "city" := Str(""), "state" := Str(""), "pincode" := Str("")]),
    "emergencyContact" := Obj(map["name" := Str(""), "phone" := Str(""), "relation" := Str("")]),
    "medicalHistory" := Obj(map["allergies" := List([]), "chronicDiseases" := List([]), "previousSurgeries" := List([])])
  ]

  /** The blood group the form sends: its text when it holds one. */
  function SentBloodGroup(form: Form): (g: Option<string>)
    ensures "bloodGroup" in form && form["bloodGroup"].Str? ==> g == Some(form["bloodGroup"].s)
  {
    if "bloodGroup" in form && form["bloodGroup"].Str? then Some(form["bloodGroup"].s) else None
  }

  /** The initial form: gender `Male`, the three medical lists empty, and every other text
      empty. Submitted untouched, its empty blood group is refused by the schema as
      written and accepted by the corrected rule. */
  lemma InitialFormShape()
    ensures InitialForm["gender"] == Str("Male")
    ensures forall k :: k in {"name", "email", "phone", "dateOfBirth", "bloodGroup"} ==> InitialForm[k] == Str("")
    ensures InitialForm["medicalHistory"].Obj? &&
      forall f :: f in InitialForm["medicalHistory"].fields ==> InitialForm["medicalHistory"].fields[f] == List([])
    ensures InitialForm["address"].Obj? &&
      forall f :: f in InitialForm["address"].fields ==> InitialForm["address"].fields[f] == Str("")
    ensures InitialForm["emergencyContact"].Obj? &&
      forall f :: f in InitialForm["emergencyContact"].fields ==> InitialForm["emergencyContact"].fields[f] == Str("")
    ensures SentBloodGroup(InitialForm) == Some("")
    ensures !BloodGroupAcceptedAsWritten(SentBloodGroup(InitialForm)) && BloodGroupAccepted(SentBloodGroup(InitialForm))
  {
    EmptyBloodGroup(Some(""));
  }

  /** Choosing a group in the select is what the form then sends. */
  lemma ChosenBloodGroupIsSent(form: Form, group: string)
    ensures SentBloodGroup(HandleChange(form, "bloodGroup", group)) == Some(group)
  {
    UndottedChange(form, "bloodGroup", group);
  }

  /** Submitted with its blood group untouched, the form is refused with 400 as written; with
      the corrected reading the same body, valid otherwise, is registered with no blood
      group. */
  lemma UntouchedBloodGroupRefused(ps: seq<Patient>, b: PatientBody, id: string, now: int)
    requires b.bloodGroup == SentBloodGroup(InitialForm)
    ensures PatientStore.Registered(ps, b, id, now).reply.status == 400
    ensures PatientBodyValid(b.(bloodGroup := None)) && !PatientStore.MrnTaken(ps, PatientStore.AssignedMrn(b, |ps|)) ==>
      PatientStore.RegisteredCorrected(ps, b, id, now).reply.status == 201
  {
    InitialFormShape();
    PatientStore.EmptyChoiceRefused(ps, b, id, [], now);
    if PatientBodyValid(b.(bloodGroup := None)) && !PatientStore.MrnTaken(ps, PatientStore.AssignedMrn(b, |ps|)) {
      PatientStore.EmptyChoiceRegisteredWhenCorrected(ps, b, id, now);
    }
  }

  // ---------------------------------------------------------------- the edit form

  /** `Number(text)` for the texts this model reads as integers: blank is 0, an optional
      sign and decimal digits is that integer, anything else is `NaN` (`None`). */
  function NumberOfText(text: string): (r: Option<int>)
    ensures Blank(text) ==> r == Some(0)
  {
    var t := Trim(text);
    if t == [] then Some(0)
    else if t[0] == '-' && |t| > 1 && AllDigits(t[1..]) then Some(-(DigitsValue(t[1..]) as int))
    else if t[0] == '+' && |t| > 1 && AllDigits(t[1..]) then Some(DigitsValue(t[1..]))
    else if AllDigits(t) then Some(DigitsValue(t))
    else None
  }

  /** `Number(v) || 0`: the number, with `NaN` (and 0) becoming 0. */
  function NumberOrZero(v: Value): int
  {
    match v
    case Str(s) => NumberOfText(s).GetOr(0)
    case Num(n) => n
    case Bool(b) => if b then 1 else 0
    case List(items) => if |items| == 1 then NumberOfText(items[0]).GetOr(0) else 0
    case Obj(_) => 0
    case Null => 0
  }

  /** Decimal digits read as their value. */
  lemma NumberOfDigits(digits: string)
    requires digits != [] && AllDigits(digits)
    ensures NumberOfText(digits) == Some(DigitsValue(digits))
  {
    DigitIsNotWhitespace(digits[0]);
    DigitIsNotWhitespace(digits[|digits| - 1]);
    TrimOfTrimmed(digits);
  }

  /** A minus sign and decimal digits read as the negated value. */
  lemma NumberOfNegated(t: string, digits: string)
    requires digits != [] && AllDigits(digits) && t == ['-'] + digits
    ensures NumberOfText(t) == Some(-(DigitsValue(digits) as int))
  {
    DigitIsNotWhitespace(digits[|digits| - 1]);
    assert t[1..] == digits && t[|t| - 1] == digits[|digits| - 1];
    TrimOfTrimmed(t);
  }

  /** The text of an integer, as a number input holds it, reads back as that integer. */
  lemma NumberOfPrintedInt(n: int)
    ensures NumberOrZero(Str(IntToString(n))) == n
  {
    if n < 0 {
      ValueOfNatToString(-n);
      NumberOfNegated(IntToString(n), NatToString(-n));
    } else {
      ValueOfNatToString(n);
      NumberOfDigits(NatToString(n));
    }
  }

  /** A text that is not a number becomes 0. */
  lemma NotANumberIsZero(s: string)
    requires NumberOfText(s).None?
    ensures NumberOrZero(Str(s)) == 0
  {
  }

  /** handleSubmit's payload: a copy of the form whose `billAmount`, when present and not
      `null`, is replaced by its numeric value, or 0. The form itself is a value and is not
      changed. */
  method BuildPayload(formData: Form) returns (payload: Form)
    ensures payload.Keys == formData.Keys
    ensures forall k :: k in formData && k != "billAmount" ==> payload[k] == formData[k]
    ensures "billAmount" in formData && formData["billAmount"] != Null ==>
      payload["billAmount"] == Num(NumberOrZero(formData["billAmount"]))
    ensures "billAmount" in formData && formData["billAmount"] == Null ==>
      payload["billAmount"] == Null
  {
    payload := formData;
    if "billAmount" in payload && payload["billAmount"] != Null {
      payload := payload["billAmount" := Num(NumberOrZero(payload["billAmount"]))];
    }
  }

  /** The date-of-birth input: the part of the stored text before the first `T`, or
      nothing when there is no text. */
  function DateInputValue(dateOfBirth: Option<string>): (r: string)
    ensures 'T' !in r
  {
    if dateOfBirth.None? || dateOfBirth.value == [] then []
    else
      var parts := Split(dateOfBirth.value, 'T');
      SplitPieces(dateOfBirth.value, 'T');
      parts[0]
  }

  /** A stored ISO timestamp `dayTclock` shows as its day. */
  lemma DateInputOfTimestamp(day: string, clock: string)
    requires 'T' !in day
    ensures DateInputValue(Some(day + "T" + clock)) == day
  {
    assert (day + "T" + clock)[|day|] == 'T';
    SplitFirstPiece(day, 'T', clock);
  }

  /** The payment select shows `String(billPaid || false)`. */
  function SelectShown(billPaid: Option<bool>): string
  {
    if billPaid == Some(true) then "true" else "false"
  }

  /** Its change handler stores `e.target.value === 'true'`: paid exactly for the option
      shown for a paid bill, so both options shown for an unpaid or unset bill read as
      unpaid. */
  function SelectedBillPaid(v: string): (paid: bool)
    ensures paid <==> v == SelectShown(Some(true))
    ensures v == SelectShown(Some(false)) || v == SelectShown(None) ==> !paid
  {
    v == "true"
  }

  /** Choosing the option shown changes nothing the schema stores: the select reads a paid
      bill as paid and an unpaid or unset one as unpaid. */
  lemma SelectRoundTrip(billPaid: Option<bool>)
    ensures SelectedBillPaid(SelectShown(billPaid)) <==> billPaid == Some(true)
  {
  }

  // ---------------------------------------------------------------- the stored user

  /** `JSON.parse(localStorage.getItem('user') || 'null')`: nothing stored, text that does
      not parse (the `catch` renders nothing), or an object with an optional `role`. */
  datatype StoredUser = NoUser | Unreadable | User(role: Option<string>)

  /** `user && (user.role === 'Admin' || user.role === 'Receptionist')`, the gate of the
      billing inputs in the edit form and of the payment toggle in the patient view. */
  predicate MayManageBilling(u: StoredUser)
  {
    u.User? && u.role.Some? && (u.role.value == "Admin" || u.role.value == "Receptionist")
  }

  /** The client gate admits the same roles as the server's `authorize('Admin',
      'Receptionist')` on `PUT /:id`. */
  lemma BillingGateMatchesServer(u: StoredUser)
    ensures MayManageBilling(u) <==> u.User? && u.role.Some? && u.role.value in FrontDeskRoles
  {
  }
}
