/** froentend/src/components/Dashboard.jsx: fetchDashboardData fills the four stat cards and
    the recent-patients list from four requests made one after the other. Each answer is
    merged into the previous stats with a spread, so each step touches one key only; a
    thrown patient list skips the three later requests. */
module Dashboard {
  import opened Seqs
  import opened Schemas
  import PatientStore

  datatype Stats = Stats(totalPatients: int, todayAppointments: int, pendingBills: int, activeStaff: int)

  /** The state's initial value. */
  const InitialStats := Stats(0, 0, 0, 0)

  /** What `patientAPI.getAll()` gave: a thrown error, or the body's `success`, `count` and
      `data`. */
  datatype PatientsAnswer =
    | PatientsThrew
    | PatientsAnswered(success: bool, count: int, data: seq<Patient>)

  /** What a count request gave: a thrown error, or `data.success` and `data.count` (a
      missing body reads as unsuccessful). */
  datatype CountAnswer =
    | CountThrew
    | CountAnswered(success: bool, count: int)
  {
    predicate Succeeded()
    {
      CountAnswered? && success
    }
  }

  /** What the page shows: the stats and the recent patients. */
  datatype Board = Board(stats: Stats, recentPatients: seq<Patient>)

  const RecentLimit := 5

  /** `data.slice(0, 5)`: the first five patients, or all of them when there are fewer. */
  function FirstFive(data: seq<Patient>): (r: seq<Patient>)
    ensures |r| == (if |data| < RecentLimit then |data| else RecentLimit)
    ensures r <= data
  {
    data[..if |data| < RecentLimit then |data| else RecentLimit]
  }

  /** The fallback: how many listed patients have `billPaid !== true`. */
  function PendingFromList(data: seq<Patient>): (n: nat)
    ensures n == CountIf(data, PatientStore.Pending)
    ensures n <= |data|
  {
    |Filter(data, PatientStore.Pending)|
  }

  /** A count answer merged into one key: its count when it succeeded, the old value
      otherwise. */
  function Merged(old_: int, a: CountAnswer): (v: int)
    ensures a.Succeeded() ==> v == a.count
    ensures !a.Succeeded() ==> v == old_
  {
    if a.Succeeded() then a.count else old_
  }

  /** The board after one run of fetchDashboardData from `prev`, given the four answers in
      the order the requests are made. */
  function Refreshed(prev: Board, all: PatientsAnswer, today: CountAnswer, pending: CountAnswer,
                     staff: CountAnswer): (r: Board)
  {
    if all.PatientsThrew? then prev
    else
      var listed :=
        if all.success then
          Board(prev.stats.(totalPatients := all.count, pendingBills := PendingFromList(all.data)), FirstFive(all.data))
        else prev;
      var s := listed.stats;
      var s := s.(todayAppointments := Merged(s.todayAppointments, today));
      var s := s.(pendingBills := Merged(s.pendingBills, pending));
      var s := s.(activeStaff := Merged(s.activeStaff, staff));
      Board(s, listed.recentPatients)
  }

  /** A thrown patient list leaves the whole board as it was: the later requests are not
      made. */
  lemma ThrownListChangesNothing(prev: Board, today: CountAnswer, pending: CountAnswer, staff: CountAnswer)
    ensures Refreshed(prev, PatientsThrew, today, pending, staff) == prev
  {
  }

  /** `totalPatients` is the server's count after a successful list, and is untouched
      otherwise; no other answer changes it. */
  lemma TotalPatientsShown(prev: Board, all: PatientsAnswer, today: CountAnswer, pending: CountAnswer,
                           staff: CountAnswer)
    ensures Refreshed(prev, all, today, pending, staff).stats.totalPatients ==
      (if all.PatientsAnswered? && all.success then all.count else prev.stats.totalPatients)
  {
  }

  /** The recent patients are the first min(5, n) of a successful list, in its order, and
      are untouched otherwise. */
  lemma RecentPatientsShown(prev: Board, all: PatientsAnswer, today: CountAnswer, pending: CountAnswer,
                            staff: CountAnswer)
    ensures var r := Refreshed(prev, all, today, pending, staff).recentPatients;
      if all.PatientsAnswered? && all.success then
        r <= all.data && |r| == (if |all.data| < 5 then |all.data| else 5)
      else r == prev.recentPatients
  {
  }

  /** `pendingBills`: a successful server count wins; failing that, the count of
      not-yet-paid patients in a successful list; failing both, the old value. A thrown list
      leaves it as it was. */
  lemma PendingBillsShown(prev: Board, all: PatientsAnswer, today: CountAnswer, pending: CountAnswer,
                          staff: CountAnswer)
    ensures Refreshed(prev, all, today, pending, staff).stats.pendingBills ==
      if all.PatientsThrew? then prev.stats.pendingBills
      else if pending.Succeeded() then pending.count
      else if all.success then CountIf(all.data, PatientStore.Pending)
      else prev.stats.pendingBills
  {
  }

  /** `todayAppointments` and `activeStaff` change only on a successful answer of their own
      request, and only when the list did not throw. */
  lemma TodayAndStaffShown(prev: Board, all: PatientsAnswer, today: CountAnswer, pending: CountAnswer,
                           staff: CountAnswer)
    ensures var s := Refreshed(prev, all, today, pending, staff).stats;
      && s.todayAppointments == (if all.PatientsAnswered? && today.Succeeded() then today.count else prev.stats.todayAppointments)
      && s.activeStaff == (if all.PatientsAnswered? && staff.Succeeded() then staff.count else prev.stats.activeStaff)
  {
  }

  /** When the list and the pending count describe the same collection, the card shows the
      same number whether the pending request succeeds or fails: the fallback computed from
      the (sorted) list is the server's count. */
  lemma FallbackAgreesWithServer(prev: Board, ps: seq<Patient>, today: CountAnswer, pending: CountAnswer,
                                 staff: CountAnswer)
    requires pending.Succeeded() ==> pending.count == PatientStore.PendingCount(ps)
    ensures var listing := PatientStore.GetAllPatients(ps);
      Refreshed(prev, PatientsAnswered(true, listing.count, listing.data), today, pending, staff).stats.pendingBills
        == PatientStore.PendingCount(ps)
  {
    var listing := PatientStore.GetAllPatients(ps);
    CountIfPermutation(listing.data, ps, PatientStore.Pending);
  }

  /** After a successful list of the collection, the total shown is its number of
      patients. */
  lemma TotalIsCollectionSize(prev: Board, ps: seq<Patient>, today: CountAnswer, pending: CountAnswer,
                              staff: CountAnswer)
    ensures var listing := PatientStore.GetAllPatients(ps);
      Refreshed(prev, PatientsAnswered(true, listing.count, listing.data), today, pending, staff).stats.totalPatients
        == |ps|
  {
  }

  /** The page's state. */
  class DashboardPage {
    var stats: Stats
    var recentPatients: seq<Patient>
    var loading: bool

    constructor()
      ensures stats == InitialStats && recentPatients == [] && loading
    {
      stats := InitialStats;
      recentPatients := [];
      loading := true;
    }

    /** fetchDashboardData, with the four answers in request order. Every state update
        spreads the previous stats and sets one key; loading ends whatever happened. */
    method FetchDashboardData(all: PatientsAnswer, today: CountAnswer, pending: CountAnswer, staff: CountAnswer)
      modifies this
      ensures Board(stats, recentPatients) == Refreshed(old(Board(stats, recentPatients)), all, today, pending, staff)
      ensures !loading
    {
      if all.PatientsAnswered? {
        if all.success {
          stats := stats.(totalPatients := all.count);
          recentPatients := all.data[..if |all.data| < 5 then |all.data| else 5];
          var pendingFromList := |Filter(all.data, PatientStore.Pending)|;
          stats := stats.(pendingBills := pendingFromList);
        }
        if today.CountAnswered? && today.success {
          stats := stats.(todayAppointments := today.count);
        }
        if pending.CountAnswered? && pending.success {
          stats := stats.(pendingBills := pending.count);
        }
        if staff.CountAnswered? && staff.success {
          stats := stats.(activeStaff := staff.count);
        }
      }
      loading := false;
    }
  }
}
