/** froentend/src/components/PatientList.jsx: the patient list page. It loads every patient
    once, filters the loaded list on the client by the search box (name and MRN without
    regard to case, phone verbatim) and shows each patient's age. */
module PatientListView {
  import opened Wrappers
  import opened Text
  import opened Seqs
  import opened Calendar
  import opened Schemas
  import opened Replies

  /** The filter's test for one patient and a non-blank query. The query is used as typed:
      it is lower-cased for name and MRN but never trimmed. */
  predicate ListMatches(p: Patient, query: string)
  {
    || Contains(ToLower(p.name), ToLower(query))
    || Contains(ToLower(p.mrn), ToLower(query))
    || Contains(p.phone, query)
  }

  /** The second effect: a query of only blanks shows every patient, any other keeps the
      patients that match it, in their order. */
  function FilterPatients(patients: seq<Patient>, query: string): (r: seq<Patient>)
    ensures Blank(query) ==> r == patients
    ensures !Blank(query) ==> forall i :: 0 <= i < |patients| ==> (patients[i] in r <==> ListMatches(patients[i], query))
    ensures forall i :: 0 <= i < |r| ==> r[i] in patients
    ensures IsSubsequence(r, patients)
  {
    if Trim(query) == [] then SubsequenceOfItself(patients); patients
    else
      var r := Filter(patients, p => ListMatches(p, query));
      assert forall i :: 0 <= i < |patients| ==> (patients[i] in r ==> ListMatches(patients[i], query)) by {
        forall i | 0 <= i < |patients| && patients[i] in r ensures ListMatches(patients[i], query) {
          var k :| 0 <= k < |r| && r[k] == patients[i];
        }
      }
      r
  }

  /** Every sequence is a subsequence of itself. */
  lemma {:induction false} SubsequenceOfItself<T>(s: seq<T>)
    ensures IsSubsequence(s, s)
    decreases |s|
  {
    if s != [] {
      SubsequenceOfItself(s[1..]);
    }
  }

  /** A string longer than `s` is not included in it. */
  lemma {:induction false} LongerNotContained(s: string, sub: string)
    requires |s| < |sub|
    ensures !Contains(s, sub)
  {
  }

  /** Every string includes itself. */
  lemma ContainsItself(s: string)
    ensures Contains(s, s)
  {
    assert s[..|s|] == s;
  }

  /** The query is not trimmed before matching: a query that is a patient's exact name with
      extra blanks around it, longer than the patient's MRN and phone, misses that patient,
      while the trimmed query finds it. */
  lemma PaddedQueryMissesName(p: Patient, query: string)
    requires !Blank(query) && Trim(query) == p.name && |p.name| < |query|
    requires |p.mrn| < |query| && |p.phone| < |query|
    ensures ListMatches(p, Trim(query))
    ensures !ListMatches(p, query)
  {
    ContainsItself(ToLower(p.name));
    LongerNotContained(ToLower(p.name), ToLower(query));
    LongerNotContained(ToLower(p.mrn), ToLower(query));
    LongerNotContained(p.phone, query);
  }

  /** An empty list stays empty whatever the query. */
  lemma NothingLoadedNothingShown(query: string)
    ensures FilterPatients([], query) == []
  {
  }

  /** calculateAge: the year difference of today and the birth date, less one when this
      year's birthday is still ahead. `today` and `birth` are the local calendar fields of
      `new Date()` and `new Date(dateOfBirth)`. */
  method CalculateAge(today: Date, birth: Date) returns (age: int)
    ensures age == Age(today, birth)
    ensures !Before(today, Date(birth.year + age, birth.month, birth.day))
    ensures Before(today, Date(birth.year + age + 1, birth.month, birth.day))
  {
    age := today.year - birth.year;
    var monthDiff := today.month - birth.month;
    if monthDiff < 0 || (monthDiff == 0 && today.day < birth.day) {
      age := age - 1;
    }
  }

  /** What `patientAPI.getAll()` gave fetchPatients: a response body, or a thrown error
      carrying the server's `message` when there was one. */
  datatype FetchAnswer =
    | Answered(success: bool, data: seq<Patient>)
    | Threw(message: Option<string>)

  const FetchFailedMessage := "Failed to fetch patients"

  /** `err.response?.data?.message || 'Failed to fetch patients'`. */
  function FetchError(message: Option<string>): (e: string)
    ensures e != []
    ensures Truthy(message) ==> e == message.value
    ensures !Truthy(message) ==> e == FetchFailedMessage
  {
    FirstMessage([message], FetchFailedMessage)
  }

  /** The page's state. After every change the filter effect has run, so the shown list is
      the loaded list filtered by the current query. */
  class PatientList {
    var patients: seq<Patient>
    var filteredPatients: seq<Patient>
    var searchQuery: string
    var loading: bool
    var error: string

    ghost predicate Valid()
      reads this
    {
      filteredPatients == FilterPatients(patients, searchQuery)
    }

    constructor()
      ensures Valid() && patients == [] && filteredPatients == [] && searchQuery == []
      ensures loading && error == []
    {
      patients := [];
      filteredPatients := [];
      searchQuery := [];
      loading := true;
      error := [];
    }

    /** fetchPatients, then the filter effect that the new `patients` triggers. A successful
        answer replaces the list, an unsuccessful one changes nothing, a thrown one sets the
        error; loading ends in every case. */
    method FetchPatients(answer: FetchAnswer)
      requires Valid()
      modifies this
      ensures Valid() && !loading && searchQuery == old(searchQuery)
      ensures answer.Answered? && answer.success ==> patients == answer.data && error == old(error)
      ensures answer.Answered? && !answer.success ==> patients == old(patients) && error == old(error)
      ensures answer.Threw? ==> patients == old(patients) && error == FetchError(answer.message)
    {
      if answer.Threw? {
        error := FetchError(answer.message);
      } else if answer.success {
        Load(answer.data);
      }
      loading := false;
    }

    /** `setPatients(data); setFilteredPatients(data)`, then the filter effect. */
    method Load(data: seq<Patient>)
      modifies this
      ensures Valid() && patients == data && searchQuery == old(searchQuery)
      ensures loading == old(loading) && error == old(error)
    {
      patients := data;
      filteredPatients := data;
      ApplySearch();
    }

    /** Typing in the search box: the new query, then the filter effect. */
    method SetSearchQuery(query: string)
      modifies this
      ensures Valid() && searchQuery == query
      ensures patients == old(patients) && loading == old(loading) && error == old(error)
    {
      searchQuery := query;
      ApplySearch();
    }

    /** The filter effect over `[searchQuery, patients]`. */
    method ApplySearch()
      modifies this
      ensures Valid()
      ensures patients == old(patients) && searchQuery == old(searchQuery)
      ensures loading == old(loading) && error == old(error)
      ensures Blank(searchQuery) ==> filteredPatients == patients
    {
      if Trim(searchQuery) == [] {
        filteredPatients := patients;
      } else {
        var query := searchQuery;
        filteredPatients := Filter(patients, p => ListMatches(p, query));
      }
    }
  }
}
