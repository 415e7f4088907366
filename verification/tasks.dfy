/** The scheduled jobs, with mail, templates and files abstracted away: what
    the monthly report computes for each doctor, which appointments the daily
    reminder picks, and what the treatment export reports back. */
module Tasks {
  import opened Base
  import opened Calendar
  import opened Store
  import opened Sorting
  import DoctorRoutes

  /** `most_common(5)`. */
  const TopCount := 5
  /** `appointments[:20]`. */
  const TableRows := 20

  function Min(a: int, b: int): int {
    if a <= b then a else b
  }

  // ---------------------------------------------------------------------------
  // Monthly report: selection and statistics

  /** A doctor's appointments dated inside the window, any status, in
      primary-key order. */
  function InWindow(st: State, doctorId: nat, w: Range): (r: seq<nat>)
    ensures forall id :: id in r <==>
              id in st.appointments && st.appointments[id].doctorId == doctorId
              && DateLeq(w.first, st.appointments[id].date) && DateLeq(st.appointments[id].date, w.last)
    ensures forall i :: 0 <= i < |r| ==> r[i] in st.appointments
    ensures forall i, j :: 0 <= i < j < |r| ==> r[i] < r[j]
  {
    AscendingKeys(set id | id in st.appointments && st.appointments[id].doctorId == doctorId
                           && DateLeq(w.first, st.appointments[id].date)
                           && DateLeq(st.appointments[id].date, w.last))
  }

  /** `sum(1 for a in appointments if a.status == s)`. */
  function CountStatus(st: State, ids: seq<nat>, s: Status): (n: nat)
    requires forall i :: 0 <= i < |ids| ==> ids[i] in st.appointments
    ensures n <= |ids|
    ensures n == 0 <==> forall i :: 0 <= i < |ids| ==> st.appointments[ids[i]].status != s
    ensures n == multiset(StatusesOf(st, ids))[s]
  {
    if ids == [] then 0
    else
      var rest := CountStatus(st, ids[1..], s);
      assert forall i :: 1 <= i < |ids| ==> ids[i] == ids[1..][i - 1];
      StatusesCons(st, ids);
      (if st.appointments[ids[0]].status == s then 1 else 0) + rest
  }

  /** The statuses of the listed appointments, in list order. */
  function StatusesOf(st: State, ids: seq<nat>): (r: seq<Status>)
    requires forall i :: 0 <= i < |ids| ==> ids[i] in st.appointments
    ensures |r| == |ids|
  {
    seq(|ids|, i requires 0 <= i < |ids| => st.appointments[ids[i]].status)
  }

  lemma StatusesCons(st: State, ids: seq<nat>)
    requires ids != [] && forall i :: 0 <= i < |ids| ==> ids[i] in st.appointments
    ensures StatusesOf(st, ids) == [st.appointments[ids[0]].status] + StatusesOf(st, ids[1..])
  {
    assert forall i :: 1 <= i < |ids| ==> ids[i] == ids[1..][i - 1];
  }

  /** Every appointment has exactly one of the three statuses, so the counts
      add up to the total; in particular `completed + cancelled <= total`. */
  lemma {:induction false} StatusCountsPartition(st: State, ids: seq<nat>)
    requires forall i :: 0 <= i < |ids| ==> ids[i] in st.appointments
    ensures CountStatus(st, ids, Booked) + CountStatus(st, ids, Completed) + CountStatus(st, ids, Cancelled) == |ids|
  {
    if ids != [] {
      StatusCountsPartition(st, ids[1..]);
    }
  }

  // ---------------------------------------------------------------------------
  // Monthly report: diagnoses

  /** `apt.treatment.diagnosis` when the appointment has a treatment whose
      diagnosis is truthy (present and non-empty). */
  function DiagnosisOf(st: State, id: nat): (r: Option<string>)
    ensures r.Some? ==> r.value != ""
    ensures r.Some? <==> exists t :: t in st.treatments.Values && t.appointmentId == id
                                   && t.diagnosis.Some? && t.diagnosis.value != "" && TreatmentOf(st.treatments, id) == Some(t)
  {
    match TreatmentOf(st.treatments, id)
    case None => None
    case Some(t) => if t.diagnosis.Some? && t.diagnosis.value != "" then t.diagnosis else None
  }

  /** The `diagnoses` list: one entry per appointment that has a diagnosis, in
      appointment order. */
  function Diagnoses(st: State, ids: seq<nat>): (r: seq<string>)
    ensures |r| <= |ids|
    ensures forall i :: 0 <= i < |r| ==> r[i] != ""
    ensures forall x :: x in r <==> exists i :: 0 <= i < |ids| && DiagnosisOf(st, ids[i]) == Some(x)
  {
    if ids == [] then []
    else
      var rest := Diagnoses(st, ids[1..]);
      assert forall i :: 1 <= i < |ids| ==> ids[i] == ids[1..][i - 1];
      assert forall i :: 0 <= i < |ids[1..]| ==> ids[1..][i] == ids[i + 1];
      match DiagnosisOf(st, ids[0])
      case Some(d) => [d] + rest
      case None => rest
  }

  /** One entry of the "most common" list. */
  datatype DiagnosisCount = DiagnosisCount(name: string, count: nat)

  /** The values of `s`, each once. */
  function DistinctValues(s: seq<string>): (r: seq<string>)
    ensures NoRepeats(r)
    ensures forall x :: x in r <==> x in s
  {
    if s == [] then []
    else
      var t := DistinctValues(s[1..]);
      assert forall x :: x in s <==> x == s[0] || x in s[1..];
      if s[0] in t then t else [s[0]] + t
  }

  /** `most_common`'s order: higher count first, and on equal counts the value
      seen first (a stable sort of the counter's first-seen order). */
  function MostCommonKey(diags: seq<string>): string -> Rank {
    (x: string) => Rank(0 - multiset(diags)[x] as int, if x in diags then FirstIndex(diags, x) else 0)
  }

  /** `Counter(diagnoses).most_common(5)`: the five most frequent diagnoses
      with their frequencies. */
  function TopDiagnoses(diags: seq<string>): (r: seq<DiagnosisCount>)
    ensures |r| <= TopCount
    ensures forall i :: 0 <= i < |r| ==> r[i].name in diags && r[i].count == multiset(diags)[r[i].name]
    ensures forall i, j :: 0 <= i < j < |r| ==> r[i].name != r[j].name
    ensures forall i, j :: 0 <= i < j < |r| ==> r[i].count >= r[j].count
    ensures forall i, j :: 0 <= i < j < |r| && r[i].count == r[j].count ==>
              FirstIndex(diags, r[i].name) < FirstIndex(diags, r[j].name)
    ensures forall x :: x in diags && (forall i :: 0 <= i < |r| ==> r[i].name != x) ==>
              && |r| == TopCount
              && Outranks(diags, r[TopCount - 1].name, x)
  {
    var sorted := SortBy(DistinctValues(diags), MostCommonKey(diags));
    var r := CountsOf(diags, sorted[..Min(TopCount, |sorted|)]);
    RankedPrefix(diags, r);
    r
  }

  /** The facts `TopDiagnoses` promises, for the prefix of the ranked names. */
  lemma RankedPrefix(diags: seq<string>, r: seq<DiagnosisCount>)
    requires var sorted := SortBy(DistinctValues(diags), MostCommonKey(diags));
             r == CountsOf(diags, sorted[..Min(TopCount, |sorted|)])
    ensures |r| <= TopCount
    ensures forall i :: 0 <= i < |r| ==> r[i].name in diags && r[i].count == multiset(diags)[r[i].name]
    ensures forall i, j :: 0 <= i < j < |r| ==> r[i].name != r[j].name
    ensures forall i, j :: 0 <= i < j < |r| ==> r[i].count >= r[j].count
    ensures forall i, j :: 0 <= i < j < |r| && r[i].count == r[j].count ==>
              FirstIndex(diags, r[i].name) < FirstIndex(diags, r[j].name)
    ensures forall x :: x in diags && (forall i :: 0 <= i < |r| ==> r[i].name != x) ==>
              && |r| == TopCount
              && Outranks(diags, r[TopCount - 1].name, x)
  {
    var names := DistinctValues(diags);
    var sorted := SortBy(names, MostCommonKey(diags));
    SortedNames(diags, names, sorted);
    TopIsPrefix(diags, sorted, r);
  }

  /** Each name with its frequency in `diags`. */
  function CountsOf(diags: seq<string>, names: seq<string>): (r: seq<DiagnosisCount>)
    ensures |r| == |names|
    ensures forall i :: 0 <= i < |r| ==> r[i] == DiagnosisCount(names[i], multiset(diags)[names[i]])
  {
    seq(|names|, i requires 0 <= i < |names| => DiagnosisCount(names[i], multiset(diags)[names[i]]))
  }

  /** The first entries of the ranked names are the most common ones. */
  lemma TopIsPrefix(diags: seq<string>, sorted: seq<string>, r: seq<DiagnosisCount>)
    requires NoRepeats(sorted) && forall x :: x in sorted <==> x in diags
    requires forall i, j :: 0 <= i < j < |sorted| ==>
               sorted[i] in diags && sorted[j] in diags && Outranks(diags, sorted[i], sorted[j])
    requires r == CountsOf(diags, sorted[..Min(TopCount, |sorted|)])
    ensures forall i :: 0 <= i < |r| ==> r[i].name in diags && r[i].count == multiset(diags)[r[i].name]
    ensures forall i, j :: 0 <= i < j < |r| ==> r[i].name != r[j].name
    ensures forall i, j :: 0 <= i < j < |r| ==> r[i].count >= r[j].count
    ensures forall i, j :: 0 <= i < j < |r| && r[i].count == r[j].count ==>
              FirstIndex(diags, r[i].name) < FirstIndex(diags, r[j].name)
    ensures forall x :: x in diags && (forall i :: 0 <= i < |r| ==> r[i].name != x) ==>
              && |r| == TopCount
              && Outranks(diags, r[TopCount - 1].name, x)
  {
    var k := Min(TopCount, |sorted|);
    assert |r| == k;
    assert forall i :: 0 <= i < k ==> r[i] == DiagnosisCount(sorted[i], multiset(diags)[sorted[i]]);
    forall i | 0 <= i < |r| ensures r[i].name in diags && r[i].count == multiset(diags)[r[i].name] {
    }
    forall i, j | 0 <= i < j < |r|
      ensures && r[i].name != r[j].name
              && r[i].count >= r[j].count
              && (r[i].count == r[j].count ==> FirstIndex(diags, r[i].name) < FirstIndex(diags, r[j].name))
    {
      assert Outranks(diags, sorted[i], sorted[j]);
    }
    forall x | x in diags && (forall i :: 0 <= i < |r| ==> r[i].name != x)
      ensures |r| == TopCount && Outranks(diags, r[TopCount - 1].name, x)
    {
      var p :| 0 <= p < |sorted| && sorted[p] == x;
      assert r[TopCount - 1].name == sorted[TopCount - 1];
    }
  }

  /** `a` comes before `b` in `most_common`: more frequent, or as frequent and
      seen earlier. */
  predicate Outranks(diags: seq<string>, a: string, b: string)
    requires a in diags && b in diags
  {
    multiset(diags)[a] > multiset(diags)[b]
    || (multiset(diags)[a] == multiset(diags)[b] && FirstIndex(diags, a) < FirstIndex(diags, b))
  }

  /** Two different diagnoses in `most_common` order: the first outranks the
      second, since no two values share a first position. */
  lemma RankedOutranks(diags: seq<string>, a: string, b: string)
    requires a in diags && b in diags && a != b
    requires RankLeq(MostCommonKey(diags)(a), MostCommonKey(diags)(b))
    ensures Outranks(diags, a, b)
  {
    assert diags[FirstIndex(diags, a)] != diags[FirstIndex(diags, b)];
  }

  lemma SortedNames(diags: seq<string>, names: seq<string>, sorted: seq<string>)
    requires NoRepeats(names) && forall x :: x in names <==> x in diags
    requires SortedBy(sorted, MostCommonKey(diags)) && multiset(sorted) == multiset(names)
    ensures NoRepeats(sorted)
    ensures forall x :: x in sorted <==> x in diags
    ensures forall i, j :: 0 <= i < j < |sorted| ==>
              sorted[i] in diags && sorted[j] in diags && Outranks(diags, sorted[i], sorted[j])
  {
    PermutationKeepsNoRepeats(names, sorted);
    forall x ensures x in sorted <==> x in diags {
      assert x in sorted <==> x in multiset(sorted);
      assert x in names <==> x in multiset(names);
    }
    forall i, j | 0 <= i < j < |sorted|
      ensures sorted[i] in diags && sorted[j] in diags && Outranks(diags, sorted[i], sorted[j])
    {
      assert sorted[i] in sorted && sorted[j] in sorted;
      RankedOutranks(diags, sorted[i], sorted[j]);
    }
  }

  // ---------------------------------------------------------------------------
  // Monthly report: the table

  /** One row of the report table. `diagnosis` is `Some("N/A")` when there is
      no treatment, otherwise the treatment's diagnosis column as stored. */
  datatype Row = Row(date: CalendarDate, patient: string, diagnosis: Option<string>, status: Status)

  /** The rows for `ids`; None when an appointment's patient is gone, where
      `apt.patient.name` raises. */
  function Rows(st: State, ids: seq<nat>): (r: Option<seq<Row>>)
    requires forall i :: 0 <= i < |ids| ==> ids[i] in st.appointments
    ensures r.None? <==> exists i :: 0 <= i < |ids| && st.appointments[ids[i]].patientId !in st.patients
    ensures r.Some? ==> |r.value| == |ids|
    ensures r.Some? ==> forall i :: 0 <= i < |ids| ==>
              var a := st.appointments[ids[i]];
              && r.value[i].date == a.date
              && r.value[i].status == a.status
              && r.value[i].patient == st.patients[a.patientId].name
              && (TreatmentOf(st.treatments, ids[i]).None? ==> r.value[i].diagnosis == Some("N/A"))
              && (TreatmentOf(st.treatments, ids[i]).Some? ==>
                    r.value[i].diagnosis == TreatmentOf(st.treatments, ids[i]).value.diagnosis)
  {
    if ids == [] then Some([])
    else
      var a := st.appointments[ids[0]];
      var rest := Rows(st, ids[1..]);
      assert forall i :: 1 <= i < |ids| ==> ids[i] == ids[1..][i - 1];
      if a.patientId !in st.patients then None
      else if rest.None? then None
      else
        var diagnosis := match TreatmentOf(st.treatments, ids[0])
                         case None => Some("N/A")
                         case Some(t) => t.diagnosis;
        Some([Row(a.date, st.patients[a.patientId].name, diagnosis, a.status)] + rest.value)
  }

  // ---------------------------------------------------------------------------
  // Monthly report: per doctor and for the whole run

  datatype Report = Report(
    total: nat,
    completed: nat,
    cancelled: nat,
    top: seq<DiagnosisCount>,
    rows: seq<Row>,
    recipient: string)

  /** What the loop body does for one doctor: `continue` on no appointments,
      an exception caught by the loop, `continue` on a missing email, or a
      report sent. */
  datatype ReportOutcome = NoActivity | Failed | NoEmail | Sent(report: Report)

  /** `appointments[:20]`: the appointments the table shows. */
  function Shown(st: State, ids: seq<nat>): (r: seq<nat>)
    requires forall i :: 0 <= i < |ids| ==> ids[i] in st.appointments
    ensures |r| == Min(TableRows, |ids|)
    ensures forall i :: 0 <= i < |r| ==> r[i] == ids[i] && r[i] in st.appointments
  {
    ids[..Min(TableRows, |ids|)]
  }

  function DoctorReport(st: State, doctorId: nat, w: Range): (r: ReportOutcome)
    requires doctorId in st.doctors
    ensures var ids := InWindow(st, doctorId, w);
            && (r.NoActivity? <==> ids == [])
            && (r.Sent? ==>
                  && r.report.total == |ids|
                  && r.report.completed == CountStatus(st, ids, Completed)
                  && r.report.cancelled == CountStatus(st, ids, Cancelled)
                  && r.report.completed + r.report.cancelled <= r.report.total
                  && |r.report.rows| == Min(TableRows, |ids|)
                  && Rows(st, Shown(st, ids)) == Some(r.report.rows)
                  && r.report.top == TopDiagnoses(Diagnoses(st, ids))
                  && st.doctors[doctorId].userId in st.users
                  && HasEmail(st.users[st.doctors[doctorId].userId])
                  && r.report.recipient == st.users[st.doctors[doctorId].userId].email.value)
            && (r.NoEmail? ==>
                  st.doctors[doctorId].userId !in st.users || !HasEmail(st.users[st.doctors[doctorId].userId]))
            && (r.Failed? <==> ids != [] && Rows(st, Shown(st, ids)).None?)
  {
    var ids := InWindow(st, doctorId, w);
    if ids == [] then NoActivity
    else
      var completed := CountStatus(st, ids, Completed);
      var cancelled := CountStatus(st, ids, Cancelled);
      StatusCountsPartition(st, ids);
      var top := TopDiagnoses(Diagnoses(st, ids));
      match Rows(st, Shown(st, ids))
      case None => Failed
      case Some(rows) =>
        var uid := st.doctors[doctorId].userId;
        if uid !in st.users || !HasEmail(st.users[uid]) then NoEmail
        else Sent(Report(|ids|, completed, cancelled, top, rows, st.users[uid].email.value))
  }

  /** `send_monthly_reports`: the outcome for every doctor, in primary-key
      order, over last month's window. None in January of year 1, where the
      window computation raises before any doctor is looked at. */
  function MonthlyReports(st: State, today: CalendarDate): (r: Option<seq<ReportOutcome>>)
    ensures r.None? <==> today.year == MinYear && today.month == 1
    ensures r.Some? <==> ReportRange(today).Some?
    ensures r.Some? ==> |r.value| == |AscendingKeys(st.doctors.Keys)|
    ensures r.Some? ==> forall i :: 0 <= i < |r.value| ==>
              var d := AscendingKeys(st.doctors.Keys)[i];
              d in st.doctors && r.value[i] == DoctorReport(st, d, ReportRange(today).value)
    ensures r.Some? ==> forall i :: 0 <= i < |r.value| ==>
              var d := AscendingKeys(st.doctors.Keys)[i];
              (r.value[i].NoActivity? <==>
                 forall a :: a in st.appointments && st.appointments[a].doctorId == d ==>
                   (st.appointments[a].date.year, st.appointments[a].date.month) != PrevMonthOf(today))
  {
    match ReportRange(today)
    case None => None
    case Some(w) =>
      var doctors := AscendingKeys(st.doctors.Keys);
      var r := seq(|doctors|, i requires 0 <= i < |doctors| => DoctorReport(st, doctors[i], w));
      forall i | 0 <= i < |r|
        ensures r[i].NoActivity? <==>
                  forall a :: a in st.appointments && st.appointments[a].doctorId == doctors[i] ==>
                    (st.appointments[a].date.year, st.appointments[a].date.month) != PrevMonthOf(today)
      {
        IdleMeansNoReport(st, doctors[i], today);
      }
      Some(r)
  }

  /** A doctor is skipped as idle exactly when none of their appointments,
      whatever its status, falls in the previous calendar month. */
  lemma IdleMeansNoReport(st: State, doctorId: nat, today: CalendarDate)
    requires doctorId in st.doctors
    requires ReportRange(today).Some?
    ensures DoctorReport(st, doctorId, ReportRange(today).value).NoActivity? <==>
              forall a :: a in st.appointments && st.appointments[a].doctorId == doctorId ==>
                (st.appointments[a].date.year, st.appointments[a].date.month) != PrevMonthOf(today)
  {
    var w := ReportRange(today).value;
    var ids := InWindow(st, doctorId, w);
    forall a | a in st.appointments && st.appointments[a].doctorId == doctorId
      ensures a in ids <==> (st.appointments[a].date.year, st.appointments[a].date.month) == PrevMonthOf(today)
    {
      ReportRangeIsPreviousMonth(today, st.appointments[a].date);
    }
    if ids != [] {
      assert ids[0] in ids;
    }
  }

  /** `sent_count`. */
  function SentCount(outcomes: seq<ReportOutcome>): (n: nat)
    ensures n <= |outcomes|
    ensures n == 0 <==> forall i :: 0 <= i < |outcomes| ==> !outcomes[i].Sent?
    ensures n == multiset(SentFlags(outcomes))[true]
  {
    if outcomes == [] then 0
    else
      assert forall i :: 1 <= i < |outcomes| ==> outcomes[i] == outcomes[1..][i - 1];
      SentFlagsCons(outcomes);
      (if outcomes[0].Sent? then 1 else 0) + SentCount(outcomes[1..])
  }

  /** For each outcome, whether a report went out, in doctor order. */
  function SentFlags(outcomes: seq<ReportOutcome>): (r: seq<bool>)
    ensures |r| == |outcomes|
  {
    seq(|outcomes|, i requires 0 <= i < |outcomes| => outcomes[i].Sent?)
  }

  lemma SentFlagsCons(outcomes: seq<ReportOutcome>)
    requires outcomes != []
    ensures SentFlags(outcomes) == [outcomes[0].Sent?] + SentFlags(outcomes[1..])
  {
    assert forall i :: 1 <= i < |outcomes| ==> outcomes[i] == outcomes[1..][i - 1];
  }

  function MonthlyMessage(sent: nat): string {
    "Sent " + Decimal(sent) + " monthly reports to doctors"
  }

  // ---------------------------------------------------------------------------
  // Daily reminders

  /** `Appointment.query.filter_by(date=today, status='Booked').all()`. */
  function DueToday(st: State, today: CalendarDate): (r: seq<nat>)
    ensures forall id :: id in r <==>
              id in st.appointments && st.appointments[id].date == today && st.appointments[id].status == Booked
    ensures forall i :: 0 <= i < |r| ==> r[i] in st.appointments
    ensures forall i, j :: 0 <= i < j < |r| ==> r[i] < r[j]
  {
    AscendingKeys(set id | id in st.appointments && st.appointments[id].date == today
                           && st.appointments[id].status == Booked)
  }

  /** A reminder goes out when the patient's user has an email and the doctor
      exists (rendering the template reads `doctor.name`). */
  predicate Remindable(st: State, id: nat)
    requires id in st.appointments && st.appointments[id].patientId in st.patients
  {
    var a := st.appointments[id];
    var uid := st.patients[a.patientId].userId;
    uid in st.users && HasEmail(st.users[uid]) && a.doctorId in st.doctors
  }

  function CountReminded(st: State, ids: seq<nat>): (n: nat)
    requires forall i :: 0 <= i < |ids| ==> ids[i] in st.appointments && st.appointments[ids[i]].patientId in st.patients
    ensures n <= |ids|
    ensures n == |ids| <==> forall i :: 0 <= i < |ids| ==> Remindable(st, ids[i])
    ensures n == multiset(RemindableFlags(st, ids))[true]
  {
    if ids == [] then 0
    else
      assert forall i :: 1 <= i < |ids| ==> ids[i] == ids[1..][i - 1];
      FlagsCons(st, ids);
      (if Remindable(st, ids[0]) then 1 else 0) + CountReminded(st, ids[1..])
  }

  /** For each listed appointment, whether it is remindable, in list order. */
  function RemindableFlags(st: State, ids: seq<nat>): (r: seq<bool>)
    requires forall i :: 0 <= i < |ids| ==> ids[i] in st.appointments && st.appointments[ids[i]].patientId in st.patients
    ensures |r| == |ids|
  {
    seq(|ids|, i requires 0 <= i < |ids| && ids[i] in st.appointments && st.appointments[ids[i]].patientId in st.patients
                 => Remindable(st, ids[i]))
  }

  lemma FlagsCons(st: State, ids: seq<nat>)
    requires ids != []
    requires forall i :: 0 <= i < |ids| ==> ids[i] in st.appointments && st.appointments[ids[i]].patientId in st.patients
    ensures RemindableFlags(st, ids) == [Remindable(st, ids[0])] + RemindableFlags(st, ids[1..])
  {
    assert forall i :: 1 <= i < |ids| ==> ids[i] == ids[1..][i - 1];
  }

  /** `send_daily_reminders`: the reminders sent and the appointments due.
      None when a due appointment has lost its patient: reading
      `patient.user_id` raises, and the handler's own message reads
      `patient.name` again, so the exception escapes `send_daily_reminders`. */
  function DailyReminders(st: State, today: CalendarDate): (r: Option<(nat, nat)>)
    ensures var due := DueToday(st, today);
            && (r.None? <==> exists i :: 0 <= i < |due| && st.appointments[due[i]].patientId !in st.patients)
            && (r.Some? ==> r.value.1 == |due| && r.value.0 <= r.value.1)
            && (r.Some? ==> r.value.0 == CountReminded(st, due))
            && (r.Some? ==> (r.value.0 == r.value.1 <==> forall i :: 0 <= i < |due| ==> Remindable(st, due[i])))
  {
    var due := DueToday(st, today);
    if exists i :: 0 <= i < |due| && st.appointments[due[i]].patientId !in st.patients then None
    else Some((CountReminded(st, due), |due|))
  }

  function ReminderMessage(sent: nat, total: nat): string {
    "Sent " + Decimal(sent) + " reminders for " + Decimal(total) + " appointments"
  }

  // ---------------------------------------------------------------------------
  // Treatment export

  datatype ExportResult = ExportError(message: string) | Exported(filename: string, recordCount: nat)

  /** `f'patient_{patient_id}_treatments_{timestamp}.csv'`. */
  function ExportFilename(patientId: nat, timestamp: string): string {
    "patient_" + Decimal(patientId) + "_treatments_" + timestamp + ".csv"
  }

  /** `Treatment.query.join(Appointment).filter(Appointment.patient_id == …)`:
      the treatments recorded on the patient's appointments. */
  function PatientTreatments(st: State, patientId: nat): set<nat> {
    JoinedTreatments(st.treatments, st.appointments, patientId)
  }

  function JoinedTreatments(treatments: map<nat, Treatment>, appointments: map<nat, Appointment>,
                            patientId: nat): set<nat> {
    set t | t in treatments && treatments[t].appointmentId in appointments
                            && appointments[treatments[t].appointmentId].patientId == patientId
  }

  /** `export_patient_treatments`, with the timestamp given. */
  function ExportTreatments(st: State, patientId: nat, timestamp: string): (r: ExportResult)
    ensures r.ExportError? <==> patientId !in st.patients
    ensures r.ExportError? ==> r.message == "Patient not found"
    ensures r.Exported? ==> ParseExportFilename(r.filename) == Some((patientId, timestamp))
    ensures r.Exported? ==> r.recordCount == |PatientTreatments(st, patientId)|
  {
    if patientId !in st.patients then ExportError("Patient not found")
    else
      ExportFilenameRoundTrip(patientId, timestamp);
      Exported(ExportFilename(patientId, timestamp), |PatientTreatments(st, patientId)|)
  }

  /** A treatment recorded on one of the patient's appointments shows up as
      exactly one more record in the patient's export. */
  lemma TreatmentShowsInExport(st: State, appointmentId: nat, diagnosis: Option<string>,
                               prescription: Option<string>, timestamp: string)
    requires appointmentId in st.appointments
    requires st.appointments[appointmentId].patientId in st.patients
    ensures var p := st.appointments[appointmentId].patientId;
            var after := DoctorRoutes.AddTreatment(st, appointmentId, diagnosis, prescription).state;
            ExportTreatments(after, p, timestamp).recordCount == ExportTreatments(st, p, timestamp).recordCount + 1
  {
    var p := st.appointments[appointmentId].patientId;
    var after := DoctorRoutes.AddTreatment(st, appointmentId, diagnosis, prescription).state;
    var tid := FreshId(st.treatments);
    var t := Treatment(appointmentId, diagnosis, prescription, None);
    assert after.treatments == st.treatments[tid := t];
    assert after.appointments.Keys == st.appointments.Keys;
    assert forall a :: a in st.appointments ==> after.appointments[a].patientId == st.appointments[a].patientId;
    PatientTreatmentsGrow(st, after, tid, t, p);
  }

  lemma PatientTreatmentsGrow(st: State, after: State, tid: nat, t: Treatment, p: nat)
    requires tid !in st.treatments && after.treatments == st.treatments[tid := t]
    requires after.appointments.Keys == st.appointments.Keys
    requires forall a :: a in st.appointments ==> after.appointments[a].patientId == st.appointments[a].patientId
    requires t.appointmentId in st.appointments && st.appointments[t.appointmentId].patientId == p
    ensures PatientTreatments(after, p) == PatientTreatments(st, p) + {tid}
    ensures |PatientTreatments(after, p)| == |PatientTreatments(st, p)| + 1
  {
    JoinedGrow(st.treatments, st.appointments, after.appointments, tid, t, p);
  }

  /** The join over a treatment table with one new row, against an
      appointment table whose patients are unchanged. */
  lemma JoinedGrow(treatments: map<nat, Treatment>, appts: map<nat, Appointment>,
                   appts': map<nat, Appointment>, tid: nat, t: Treatment, p: nat)
    requires tid !in treatments
    requires appts'.Keys == appts.Keys
    requires forall a :: a in appts ==> appts'[a].patientId == appts[a].patientId
    requires t.appointmentId in appts && appts[t.appointmentId].patientId == p
    ensures JoinedTreatments(treatments[tid := t], appts', p) == JoinedTreatments(treatments, appts, p) + {tid}
    ensures |JoinedTreatments(treatments[tid := t], appts', p)| == |JoinedTreatments(treatments, appts, p)| + 1
  {
    var before, grown := JoinedTreatments(treatments, appts, p), JoinedTreatments(treatments[tid := t], appts', p);
    assert tid !in before;
    forall x ensures x in grown <==> x in before || x == tid {
      if x != tid && x in treatments {
        assert treatments[tid := t][x] == treatments[x];
      }
    }
    assert grown == before + {tid};
  }

  /** Length of the run of decimal digits `s` starts with. */
  function DigitRun(s: string): (n: nat)
    ensures n <= |s|
    ensures forall i :: 0 <= i < n ==> IsDigit(s[i])
    ensures n < |s| ==> !IsDigit(s[n])
  {
    if s == [] || !IsDigit(s[0]) then 0
    else
      var n := DigitRun(s[1..]);
      assert forall i :: 1 <= i < 1 + n ==> s[i] == s[1..][i - 1];
      1 + n
  }

  /** Reads the patient id and timestamp back out of an export file name. */
  function ParseExportFilename(name: string): (r: Option<(nat, string)>)
  {
    if |name| < 8 || name[..8] != "patient_" then None
    else
      var rest := name[8..];
      var n := DigitRun(rest);
      var tail := rest[n..];
      if n == 0 || |tail| < 16 || tail[..12] != "_treatments_" || tail[|tail| - 4..] != ".csv" then None
      else Some((ParseDecimal(rest[..n]), tail[12..|tail| - 4]))
  }

  lemma {:induction false} DigitRunOfDigits(d: string, t: string)
    requires forall i :: 0 <= i < |d| ==> IsDigit(d[i])
    requires t != [] && !IsDigit(t[0])
    ensures DigitRun(d + t) == |d|
  {
    if d != [] {
      assert (d + t)[1..] == d[1..] + t;
      DigitRunOfDigits(d[1..], t);
    } else {
      assert d + t == t;
    }
  }

  /** The export's file name determines the patient and the timestamp. */
  lemma ExportFilenameRoundTrip(patientId: nat, timestamp: string)
    ensures ParseExportFilename(ExportFilename(patientId, timestamp)) == Some((patientId, timestamp))
  {
    var digits := Decimal(patientId);
    var tail := "_treatments_" + timestamp + ".csv";
    var name := ExportFilename(patientId, timestamp);
    NameParts(digits, tail, name);
    DigitRunOfDigits(digits, tail);
    Halves(digits, tail);
    TailParts(timestamp, tail);
    DecimalRoundTrip(patientId);
  }

  /** The file name is the prefix, then the digits and the fixed tail. */
  lemma NameParts(digits: string, tail: string, name: string)
    requires name == "patient_" + digits + tail
    ensures |name| >= 8 && name[..8] == "patient_" && name[8..] == digits + tail
  {
    assert name == "patient_" + (digits + tail);
    Halves("patient_", digits + tail);
  }

  /** The tail is the marker, the timestamp and the extension. */
  lemma TailParts(timestamp: string, tail: string)
    requires tail == "_treatments_" + timestamp + ".csv"
    ensures |tail| >= 16 && tail[..12] == "_treatments_" && tail[12..|tail| - 4] == timestamp
    ensures tail[|tail| - 4..] == ".csv"
  {
    Halves("_treatments_" + timestamp, ".csv");
    Halves("_treatments_", timestamp);
  }

  /** A concatenation splits back into its two parts. */
  lemma Halves(a: string, b: string)
    ensures (a + b)[..|a|] == a && (a + b)[|a|..] == b
  {
  }

  /** Two exports share a file name only when patient and timestamp agree. */
  lemma ExportFilenameInjective(p1: nat, t1: string, p2: nat, t2: string)
    ensures ExportFilename(p1, t1) == ExportFilename(p2, t2) ==> p1 == p2 && t1 == t2
  {
    ExportFilenameRoundTrip(p1, t1);
    ExportFilenameRoundTrip(p2, t2);
  }
}
