/** The run scheduler as a step protocol over the persisted job and row tables. The update functions
    state what each guarded statement does to the tables; Step lists what may happen, in any order,
    including a crash of the process and the recovery that follows it. */
module Scheduler {

  datatype JobStatus = JQueued | JRunning | JCancelling | JFinished | JCancelled | JExpired
  datatype RowStatus = Queued | Running | Succeeded | Partial | Failed | Untracked | Cancelled
  datatype Outcome = Ok | PartlyOk | Failure | Lost

  /** The handles of the remote run, "" when none was captured. */
  datatype Handles = Handles(run: string, conv: string, task: string)

  datatype Totals = Totals(total: nat, succeeded: nat, partial: nat, failed: nat)

  /** retries and reports are history: how often the job was retried and how often finalization
      reported it. */
  datatype Job = Job(status: JobStatus, concurrency: int, score: real, urgent: bool, totals: Totals,
                     retries: nat, reports: nat)

  /** dispatches, resets, retries, starts and paid are history: dispatches by the scheduler, requeues
      by crash recovery, requeues by an explicit retry, dispatches that persisted evidence of having
      started, and whether the latest dispatch is one of those. */
  datatype Row = Row(job: int, index: int, status: RowStatus, ids: Handles, stamped: bool,
                     dispatches: nat, resets: nat, retries: nat, starts: nat, paid: bool)

  /** live holds the rows whose dispatch goroutine runs in this process, polled those whose recovered
      run is being reconciled. Neither is persisted. */
  datatype State = State(jobs: map<int, Job>, rows: map<int, Row>, live: set<int>, polled: set<int>, up: bool)

  const NO_IDS := Handles("", "", "")

  function Max1(n: int): int { if n < 1 then 1 else n }

  predicate Evidence(r: Row) {
    r.ids.run != "" || r.ids.conv != "" || r.ids.task != "" || r.stamped
  }

  predicate Pollable(r: Row) {
    r.ids.run != "" || r.ids.conv != ""
  }

  function Having(rows: map<int, Row>, st: RowStatus): set<int> {
    set r | r in rows && rows[r].status == st
  }

  function Of(rows: map<int, Row>, j: int, st: RowStatus): set<int> {
    set r | r in rows && rows[r].job == j && rows[r].status == st
  }

  function AllOf(rows: map<int, Row>, j: int): set<int> {
    set r | r in rows && rows[r].job == j
  }

  // ---------- row updates ----------

  function StatusOf(o: Outcome): RowStatus {
    match o
    case Ok => Succeeded
    case PartlyOk => Partial
    case Lost => Untracked
    case Failure => Failed
  }

  function Dispatched(r: Row): Row {
    r.(status := Running, dispatches := r.dispatches + 1, paid := false)
  }

  function Paid(r: Row): Row {
    if r.paid then r else r.(starts := r.starts + 1, paid := true)
  }

  function Stamped(r: Row): Row {
    Paid(r).(stamped := true)
  }

  /** An id is written only when it is not empty, so a later event never erases an earlier one. */
  function Captured(r: Row, ids: Handles): Row {
    if ids == NO_IDS then r
    else Paid(r).(ids := Handles(if ids.run != "" then ids.run else r.ids.run,
                                 if ids.conv != "" then ids.conv else r.ids.conv,
                                 if ids.task != "" then ids.task else r.ids.task))
  }

  function Finished(r: Row, o: Outcome, run: string): Row {
    r.(status := StatusOf(o), ids := if run != "" then r.ids.(run := run) else r.ids)
  }

  function Requeued(r: Row): Row {
    r.(status := Queued, ids := NO_IDS, retries := r.retries + 1, paid := false)
  }

  function Reset(r: Row): Row {
    r.(status := Queued, resets := r.resets + 1)
  }

  /** Crash recovery's three-way split of a row that was left running. */
  function Recovered(r: Row): Row {
    if r.status != Running || Pollable(r) then r
    else if Evidence(r) then Finished(r, Lost, "")
    else Reset(r)
  }

  /** The three selections of recovery among the rows left running: followed again by their handles,
      given up as lost, and requeued as never started. */
  function Resumable(rows: map<int, Row>): set<int> {
    set r | r in rows && rows[r].status == Running && Pollable(rows[r])
  }

  function Stuck(rows: map<int, Row>): set<int> {
    set r | r in rows && rows[r].status == Running && !Pollable(rows[r]) && Evidence(rows[r])
  }

  function Unstarted(rows: map<int, Row>): set<int> {
    set r | r in rows && rows[r].status == Running && !Evidence(rows[r])
  }

  // ---------- job updates ----------

  /** Whether finalizeLocked closes the job: nothing running, and nothing waiting unless the job is
      being cancelled. Only finished and cancelled jobs are left alone. */
  predicate Closable(s: State, j: int) {
    && j in s.jobs
    && s.jobs[j].status != JFinished && s.jobs[j].status != JCancelled
    && Of(s.rows, j, Running) == {}
    && (Of(s.rows, j, Queued) == {} || s.jobs[j].status == JCancelling)
  }

  function CountTotals(rows: map<int, Row>, j: int): Totals {
    Totals(|AllOf(rows, j)|, |Of(rows, j, Succeeded)|, |Of(rows, j, Partial)|, |Of(rows, j, Failed)|)
  }

  function Closed(s: State, j: int): Job
    requires j in s.jobs
  {
    s.jobs[j].(status := if s.jobs[j].status == JCancelling then JCancelled else JFinished,
               totals := CountTotals(s.rows, j), reports := s.jobs[j].reports + 1)
  }

  function Finalize(s: State, j: int): State {
    if Closable(s, j) then s.(jobs := s.jobs[j := Closed(s, j)]) else s
  }

  /** The jobs a tick tries to close after admission. */
  predicate Swept(st: JobStatus) { st == JQueued || st == JRunning || st == JCancelling }

  function Sweep(s: State): State {
    s.(jobs := map j | j in s.jobs :: if Swept(s.jobs[j].status) && Closable(s, j) then Closed(s, j) else s.jobs[j])
  }

  function Admitted(s: State, a: set<int>): State {
    s.(rows := map r | r in s.rows :: if r in a then Dispatched(s.rows[r]) else s.rows[r],
       jobs := map j | j in s.jobs ::
         if s.jobs[j].status == JQueued && (exists r :: r in a && r in s.rows && s.rows[r].job == j)
         then s.jobs[j].(status := JRunning) else s.jobs[j],
       live := s.live + a)
  }

  predicate Schedulable(st: JobStatus) { st == JQueued || st == JRunning }

  /** What one admission round may start: waiting rows of due jobs, within the budget and within each
      job's window. */
  predicate MayAdmit(s: State, a: set<int>, budget: int, due: set<int>) {
    && a <= Having(s.rows, Queued)
    && (a != {} ==> |Having(s.rows, Running)| + |a| <= budget)
    && (forall r :: r in a ==> s.rows[r].job in due && s.rows[r].job in s.jobs
                               && Schedulable(s.jobs[s.rows[r].job].status))
    && (forall j :: j in s.jobs && a * Of(s.rows, j, Queued) != {} ==>
          |Of(s.rows, j, Running)| + |a * Of(s.rows, j, Queued)| <= Max1(s.jobs[j].concurrency))
  }

  /** Admission never leaves a slot unused while a due job has a waiting row and window left. */
  predicate KeepsBusy(s: State, a: set<int>, budget: int, due: set<int>) {
    (exists j :: && j in s.jobs && j in due && Schedulable(s.jobs[j].status)
                 && Of(s.rows, j, Queued) != {}
                 && |Of(s.rows, j, Running)| < Max1(s.jobs[j].concurrency))
    && |Having(s.rows, Running)| < budget
    ==> a != {}
  }

  function NewRows(j: int, ids: seq<int>): map<int, Row> {
    map k | k in ids :: Row(j, IndexOf(ids, k), Queued, NO_IDS, false, 0, 0, 0, 0, false)
  }

  function IndexOf(ids: seq<int>, k: int): (i: nat)
    requires k in ids
    ensures i < |ids| && ids[i] == k
  {
    if ids[0] == k then 0 else 1 + IndexOf(ids[1..], k)
  }

  datatype Step =
    | Submit(job: int, newRows: seq<int>, concurrency: int, score: real, urgent: bool)
    | Tick(admitted: set<int>, budget: int, due: set<int>)
    | Close(job: int)
    | OpenStream(row: int)
    | Capture(row: int, ids: Handles)
    | Finish(row: int, outcome: Outcome, run: string)
    | Abort(row: int)
    | Settle(row: int, outcome: Outcome, run: string)
    | Reconcile(row: int, outcome: Outcome, run: string)
    | CancelRow(row: int)
    | CancelJob(job: int)
    | Retry(job: int, statuses: set<RowStatus>)
    | Expire(job: int)
    | Crash
    | Resume

  const MAX_ROWS := 5000

  /** No row the retry selects is still held by a goroutine of this process. */
  predicate Unowned(s: State, j: int, st: set<RowStatus>) {
    forall r :: r in s.rows && s.rows[r].job == j && s.rows[r].status in st ==> r !in s.live && r !in s.polled
  }

  predicate Enabled(s: State, t: Step) {
    if t.Resume? then !s.up
    else s.up && match t
      case Submit(j, ids, _, _, _) =>
        j !in s.jobs && 0 < |ids| <= MAX_ROWS && (forall k :: k in ids ==> k !in s.rows)
        && (forall a, b :: 0 <= a < b < |ids| ==> ids[a] != ids[b])
      case Tick(a, budget, due) => MayAdmit(s, a, budget, due) && KeepsBusy(s, a, budget, due)
      case OpenStream(r) => r in s.live && r in s.rows
      case Capture(r, _) => r in s.live && r in s.rows
      case Finish(r, _, _) => r in s.live && r in s.rows
      case Abort(r) => r in s.live && r in s.rows
      case Settle(r, _, _) => r in s.polled && r in s.rows
      case Reconcile(r, _, _) => r in s.rows && Pollable(s.rows[r]) && r !in s.live
      case CancelRow(r) => r in s.rows
      case CancelJob(j) => j in s.jobs
      case Retry(j, st) => j in s.jobs && Unowned(s, j, st)
      case Expire(j) => j in s.jobs
      case _ => true
  }

  function RetryState(s: State, j: int, st: set<RowStatus>): State {
    s.(rows := map r | r in s.rows ::
         if s.rows[r].job == j && s.rows[r].status in st then Requeued(s.rows[r]) else s.rows[r],
       jobs := if j in s.jobs then s.jobs[j := s.jobs[j].(status := JQueued, retries := s.jobs[j].retries + 1)]
               else s.jobs)
  }

  function CancelState(s: State, j: int): State {
    if j !in s.jobs then s
    else if s.jobs[j].status == JQueued then s.(jobs := s.jobs[j := s.jobs[j].(status := JCancelled)])
    else if s.jobs[j].status == JRunning then s.(jobs := s.jobs[j := s.jobs[j].(status := JCancelling)])
    else s
  }

  function RecoverState(s: State): State {
    s.(rows := map r | r in s.rows :: Recovered(s.rows[r]),
       live := {},
       polled := Resumable(s.rows),
       up := true)
  }

  function Apply(s: State, t: Step): State
    requires Enabled(s, t)
  {
    match t
    case Submit(j, ids, c, score, urgent) =>
      s.(jobs := s.jobs[j := Job(JQueued, c, score, urgent, Totals(|ids|, 0, 0, 0), 0, 0)],
         rows := s.rows + NewRows(j, ids))
    case Tick(a, _, _) => Sweep(Admitted(s, a))
    case Close(j) => Finalize(s, j)
    case OpenStream(r) => s.(rows := s.rows[r := Stamped(s.rows[r])])
    case Capture(r, ids) => s.(rows := s.rows[r := Captured(s.rows[r], ids)])
    case Finish(r, o, run) => s.(rows := s.rows[r := Finished(s.rows[r], o, run)], live := s.live - {r})
    case Abort(r) => s.(rows := s.rows[r := s.rows[r].(status := Cancelled)], live := s.live - {r})
    case Settle(r, o, run) => s.(rows := s.rows[r := Finished(s.rows[r], o, run)], polled := s.polled - {r})
    case Reconcile(r, o, run) => s.(rows := s.rows[r := Finished(s.rows[r], o, run)])
    case CancelRow(r) =>
      if s.rows[r].status == Queued then s.(rows := s.rows[r := s.rows[r].(status := Cancelled)]) else s
    case CancelJob(j) => CancelState(s, j)
    case Retry(j, st) => RetryState(s, j, st)
    case Expire(j) =>
      if s.jobs[j].status == JQueued then s.(jobs := s.jobs[j := s.jobs[j].(status := JExpired)]) else s
    case Crash => s.(live := {}, polled := {}, up := false)
    case Resume => RecoverState(s)
  }

  // ---------- the invariant ----------

  /** The accounting of one row: it is dispatched at most once more than it was requeued, and starts
      persisting evidence at most once more than it was explicitly retried. */
  predicate Accounted(r: Row) {
    && r.dispatches <= r.resets + r.retries + 1
    && r.starts <= r.retries + (if r.paid then 1 else 0)
    && (r.paid ==> Evidence(r))
    && (r.status == Queued ==> r.ids == NO_IDS && !r.paid && r.dispatches <= r.resets + r.retries)
  }

  predicate Tracked(s: State) {
    if !s.up then s.live == {} && s.polled == {}
    else
      && s.live <= Having(s.rows, Running) <= s.live + s.polled
      && (forall r :: r in s.live ==> r !in s.polled)
      && (forall r :: r in s.polled ==> r in s.rows && s.rows[r].status != Queued)
  }

  predicate Windowed(s: State) {
    forall j :: j in s.jobs ==> |Of(s.rows, j, Running)| <= Max1(s.jobs[j].concurrency)
  }

  predicate FinishedIsQuiet(s: State) {
    forall j :: j in s.jobs && s.jobs[j].status == JFinished ==>
      Of(s.rows, j, Queued) == {} && Of(s.rows, j, Running) == {}
  }

  predicate ReportedOnce(j: Job) {
    j.reports <= j.retries + (if j.status == JFinished || j.status == JCancelled then 1 else 0)
  }

  predicate RowsAccounted(s: State) {
    forall r :: r in s.rows ==> s.rows[r].job in s.jobs && Accounted(s.rows[r])
  }

  predicate JobsReported(s: State) {
    forall j :: j in s.jobs ==> ReportedOnce(s.jobs[j])
  }

  predicate Inv(s: State) {
    && RowsAccounted(s)
    && JobsReported(s)
    && Tracked(s)
    && Windowed(s)
    && FinishedIsQuiet(s)
  }

  const INIT := State(map[], map[], {}, {}, true)
}
