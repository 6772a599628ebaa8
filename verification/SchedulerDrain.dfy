/** What a tick and finalization achieve: no job is stranded, stored totals conserve the rows, and
    without new work every scheduling step brings the queue closer to empty. */
module SchedulerDrain {
  import opened FiniteSets
  import opened Scheduler
  import opened SchedulerSafety

  // ---------- finalization ----------

  function Among(rows: map<int, Row>, j: int, sts: set<RowStatus>): set<int> {
    set r | r in rows && rows[r].job == j && rows[r].status in sts
  }

  lemma Peel(rows: map<int, Row>, j: int, sts: set<RowStatus>, st: RowStatus)
    requires st in sts
    ensures |Among(rows, j, sts)| == |Of(rows, j, st)| + |Among(rows, j, sts - {st})|
  {
    UnionSize(Of(rows, j, st), Among(rows, j, sts - {st}));
    assert Among(rows, j, sts) == Of(rows, j, st) + Among(rows, j, sts - {st});
  }

  lemma AnyStatus(st: RowStatus)
    ensures st in {Queued, Running, Succeeded, Partial, Failed, Untracked, Cancelled}
  {
    match st
    case Queued => case Running => case Succeeded => case Partial =>
    case Failed => case Untracked => case Cancelled =>
  }

  /** The rows of a job split by status. */
  lemma Partition(rows: map<int, Row>, j: int)
    ensures |AllOf(rows, j)| == |Of(rows, j, Queued)| + |Of(rows, j, Running)| + |Of(rows, j, Succeeded)|
                                + |Of(rows, j, Partial)| + |Of(rows, j, Failed)| + |Of(rows, j, Untracked)|
                                + |Of(rows, j, Cancelled)|
  {
    var all := {Queued, Running, Succeeded, Partial, Failed, Untracked, Cancelled};
    forall r | r in AllOf(rows, j) ensures r in Among(rows, j, all) {
      AnyStatus(rows[r].status);
    }
    assert AllOf(rows, j) == Among(rows, j, all);
    Peel(rows, j, all, Queued);
    Peel(rows, j, all - {Queued}, Running);
    Peel(rows, j, all - {Queued} - {Running}, Succeeded);
    Peel(rows, j, all - {Queued} - {Running} - {Succeeded}, Partial);
    Peel(rows, j, all - {Queued} - {Running} - {Succeeded} - {Partial}, Failed);
    Peel(rows, j, all - {Queued} - {Running} - {Succeeded} - {Partial} - {Failed}, Untracked);
    Peel(rows, j, all - {Queued} - {Running} - {Succeeded} - {Partial} - {Failed} - {Untracked}, Cancelled);
    var none := all - {Queued} - {Running} - {Succeeded} - {Partial} - {Failed} - {Untracked} - {Cancelled};
    assert Among(rows, j, none) == {};
  }

  /** Closing a job cancels it exactly when it was being cancelled and finishes it otherwise. The totals it
      stores count its rows by how they ended and account for every one: a finished job has no live row, and a
      cancelled one may leave rows that were never started. */
  lemma ClosedConserves(s: State, j: int)
    requires Closable(s, j)
    ensures var c := Finalize(s, j).jobs[j]; var t := c.totals;
      && c.status == (if s.jobs[j].status == JCancelling then JCancelled else JFinished)
      && t.total == |set r | r in s.rows && s.rows[r].job == j|
      && t.succeeded == |set r | r in s.rows && s.rows[r].job == j && s.rows[r].status == Succeeded|
      && t.partial == |set r | r in s.rows && s.rows[r].job == j && s.rows[r].status == Partial|
      && t.failed == |set r | r in s.rows && s.rows[r].job == j && s.rows[r].status == Failed|
      && t.total == t.succeeded + t.partial + t.failed + |Of(s.rows, j, Untracked)| + |Of(s.rows, j, Cancelled)|
                    + (if c.status == JCancelled then |Of(s.rows, j, Queued)| else 0)
      && Of(s.rows, j, Running) == {}
      && (c.status == JFinished ==> Of(s.rows, j, Queued) == {})
  {
    Partition(s.rows, j);
  }

  /** Only an expired job without live rows can leave a terminal status by finalization: it becomes
      finished. */
  lemma ExpiredMayFinish(s: State, j: int)
    requires j in s.jobs && s.jobs[j].status in {JFinished, JCancelled, JExpired}
    ensures Finalize(s, j) != s <==>
      s.jobs[j].status == JExpired && Of(s.rows, j, Queued) == {} && Of(s.rows, j, Running) == {}
    ensures Finalize(s, j) != s ==> Finalize(s, j).jobs[j].status == JFinished
  {
    if Closable(s, j) {
      assert Finalize(s, j).jobs[j].status == JFinished;
    }
  }

  const ABANDONED := SUBMITTED.(rows := map[1 := WAITING.(status := Cancelled)])
  const EXPIRED := ABANDONED.(jobs := map[1 := ONE_ROW.(status := JExpired)])

  lemma DropOne()
    ensures Enabled(SUBMITTED, CancelRow(1)) && Apply(SUBMITTED, CancelRow(1)) == ABANDONED
  {
  }

  lemma ExpireOne()
    ensures Enabled(ABANDONED, Expire(1)) && Apply(ABANDONED, Expire(1)) == EXPIRED
  {
  }

  lemma CloseOne()
    ensures Enabled(EXPIRED, Close(1)) && Apply(EXPIRED, Close(1)) == Finalize(EXPIRED, 1)
    ensures EXPIRED.jobs[1].status == JExpired && Finalize(EXPIRED, 1).jobs[1].status == JFinished
  {
    hide CountTotals;
    assert Of(EXPIRED.rows, 1, Queued) == {} && Of(EXPIRED.rows, 1, Running) == {};
  }

  /** One job whose only row is cancelled while it waits, then expired: finalization calls it finished. */
  lemma ExpiredFinishes()
    ensures IsRun([INIT, SUBMITTED, ABANDONED, EXPIRED, Finalize(EXPIRED, 1)],
                  [SUBMIT, CancelRow(1), Expire(1), Close(1)])
    ensures EXPIRED.jobs[1].status == JExpired && Finalize(EXPIRED, 1).jobs[1].status == JFinished
  {
    SubmitOne();
    DropOne();
    ExpireOne();
    CloseOne();
    hide Enabled, Apply, Finalize, SUBMITTED, ABANDONED, EXPIRED;
  }

  predicate NotStranded(u: State, j: int) {
    && j in u.jobs
    && (Schedulable(u.jobs[j].status) ==> Of(u.rows, j, Queued) != {} || Of(u.rows, j, Running) != {})
    && (u.jobs[j].status == JCancelling ==> Of(u.rows, j, Running) != {})
  }

  predicate FreshlyFinished(u: State, j: int) {
    && j in u.jobs
    && Of(u.rows, j, Queued) == {} && Of(u.rows, j, Running) == {}
    && u.jobs[j].totals == CountTotals(u.rows, j)
  }

  /** After a tick no waiting or running job is without live rows, and no cancelling job without a
      running one, from any state at all. */
  lemma TickStrandsNobody(s: State, a: set<int>, j: int)
    requires j in s.jobs
    ensures NotStranded(Sweep(Admitted(s, a)), j)
    ensures Sweep(Admitted(s, a)).jobs[j].status == JFinished && s.jobs[j].status != JFinished ==>
      FreshlyFinished(Sweep(Admitted(s, a)), j)
  {
    var m := Admitted(s, a);
    assert m.jobs[j].status == JFinished ==> s.jobs[j].status == JFinished;
  }

  /** What a tick does to the rows: the admitted ones run, with one more dispatch on record, and no other changes. */
  lemma TickRows(s: State, a: set<int>, budget: int, due: set<int>)
    requires Enabled(s, Tick(a, budget, due))
    ensures var u := Apply(s, Tick(a, budget, due));
      && u.live == s.live + a && u.polled == s.polled && u.up == s.up
      && u.rows.Keys == s.rows.Keys && u.jobs.Keys == s.jobs.Keys
      && forall r :: r in s.rows ==>
        u.rows[r] == if r in a then s.rows[r].(status := Running, paid := false, dispatches := s.rows[r].dispatches + 1)
                     else s.rows[r]
  {
    hide Closable;
  }

  predicate HasRow(s: State, j: int, st: RowStatus) {
    exists r :: r in s.rows && s.rows[r].job == j && s.rows[r].status == st
  }

  lemma HasRowOf(s: State, j: int, st: RowStatus)
    ensures HasRow(s, j, st) <==> Of(s.rows, j, st) != {}
  {
    if HasRow(s, j, st) {
      var r :| r in s.rows && s.rows[r].job == j && s.rows[r].status == st;
      assert r in Of(s.rows, j, st);
    }
    if Of(s.rows, j, st) != {} { var r := Member(Of(s.rows, j, st)); }
  }

  lemma AdmittedJob(s: State, a: set<int>, j: int)
    requires a <= Having(s.rows, Queued) && j in s.jobs
    ensures var m := Admitted(s, a); var starts := exists r :: r in a && s.rows[r].job == j;
      && j in m.jobs
      && m.jobs[j] == (if s.jobs[j].status == JQueued && starts then s.jobs[j].(status := JRunning) else s.jobs[j])
      && (starts ==> HasRow(m, j, Running))
  {
    var m := Admitted(s, a);
    assert forall r :: r in a ==> r in Having(s.rows, Queued);
    if r :| r in a && s.rows[r].job == j { assert m.rows[r].job == j && m.rows[r].status == Running; }
  }

  lemma SweptJob(m: State, j: int)
    requires j in m.jobs
    ensures var was := m.jobs[j]; var u := Sweep(m);
      var closed := was.status in {JQueued, JRunning, JCancelling} && !HasRow(m, j, Running)
                    && (was.status == JCancelling || !HasRow(m, j, Queued));
      && u.rows == m.rows && j in u.jobs
      && u.jobs[j] == if closed then
          was.(status := if was.status == JCancelling then JCancelled else JFinished, totals := CountTotals(m.rows, j),
               reports := was.reports + 1)
        else was
  {
    HasRowOf(m, j, Queued);
    HasRowOf(m, j, Running);
    hide Of, CountTotals, HasRow;
  }

  /** What a tick does to one job: it starts running with its first admitted row; a waiting or running job left
      without live rows is finished, and a cancelling one without running rows cancelled, each with the totals of
      that moment and one report; every other job stays as it is. */
  lemma TickJob(s: State, a: set<int>, budget: int, due: set<int>, j: int)
    requires Enabled(s, Tick(a, budget, due)) && j in s.jobs
    ensures var u := Apply(s, Tick(a, budget, due)); var was := s.jobs[j];
      var waits, runs := HasRow(u, j, Queued), HasRow(u, j, Running);
      var closed := was.status in {JQueued, JRunning, JCancelling} && !runs && (was.status == JCancelling || !waits);
      && j in u.jobs
      && u.jobs[j] ==
        if closed then
          was.(status := if was.status == JCancelling then JCancelled else JFinished, totals := CountTotals(u.rows, j),
               reports := was.reports + 1)
        else if was.status == JQueued && exists r :: r in a && s.rows[r].job == j then was.(status := JRunning)
        else was
  {
    var m := Admitted(s, a);
    assert a <= Having(s.rows, Queued) && Apply(s, Tick(a, budget, due)) == Sweep(m);
    AdmittedJob(s, a, j);
    SweptJob(m, j);
    HasRowSame(Sweep(m), m, j);
    hide Admitted, Sweep, Apply, Enabled, HasRow, CountTotals, Having;
  }

  lemma HasRowSame(s: State, t: State, j: int)
    requires s.rows == t.rows
    ensures forall st :: HasRow(s, j, st) == HasRow(t, j, st)
  {
  }

  /** Whether a step closes job j: by finalizing it, or in the sweep that ends a tick. */
  predicate Closes(s: State, t: Step, j: int) {
    match t
    case Close(k) => k == j && Closable(s, j)
    case Tick(a, _, _) => j in SweptJobs(Admitted(s, a))
    case _ => false
  }

  lemma StepReports(s: State, t: Step, j: int)
    requires Enabled(s, t) && j in s.jobs
    ensures j in Apply(s, t).jobs
    ensures Apply(s, t).jobs[j].reports == s.jobs[j].reports + if Closes(s, t, j) then 1 else 0
  {
    hide Closable, MayAdmit, KeepsBusy, Unowned, NewRows, Resumable, Recovered;
    if t.Tick? {
      hide Admitted;
      assert j in Admitted(s, t.admitted).jobs && Admitted(s, t.admitted).jobs[j].reports == s.jobs[j].reports by {
        AdmittedReports(s, t.admitted, j);
      }
    }
  }

  lemma AdmittedReports(s: State, a: set<int>, j: int)
    requires j in s.jobs
    ensures j in Admitted(s, a).jobs && Admitted(s, a).jobs[j].reports == s.jobs[j].reports
  {
  }

  /** Every closure of a job is reported exactly once, and a job at most once per retry cycle. */
  lemma ReportsPerCycle(states: seq<State>, steps: seq<Step>, i: nat, j: int)
    requires IsRun(states, steps) && i < |states| && j in states[i].jobs
    ensures states[i].jobs[j].reports <= states[i].jobs[j].retries + 1
    ensures i < |steps| ==> (
      && j in states[i + 1].jobs
      && states[i + 1].jobs[j].reports == states[i].jobs[j].reports + if Closes(states[i], steps[i], j) then 1 else 0)
  {
    RunKeepsInv(states, steps, i);
    if i < |steps| { StepReports(states[i], steps[i], j); }
    hide Apply, Enabled, Closes;
  }

  // ---------- draining ----------

  function Rank(st: JobStatus): nat {
    match st
    case JQueued => 3
    case JRunning => 2
    case JCancelling => 1
    case JExpired => 1
    case _ => 0
  }

  function Weight(st: RowStatus): nat {
    match st
    case Queued => 2
    case Running => 1
    case _ => 0
  }

  /** One token for every status change a job or a row still has ahead of it. */
  function JobTokens(s: State): set<(int, int)> {
    set j, k | j in s.jobs && 0 <= k < Rank(s.jobs[j].status) :: (j, k)
  }

  function RowTokens(s: State): set<(int, int)> {
    set r, k | r in s.rows && 0 <= k < Weight(s.rows[r].status) :: (r, k)
  }

  /** What is left to do: 2 per waiting row, 1 per running row, the rank of every job, and the
      reconciliations in progress. */
  function Load(s: State): nat { |JobTokens(s)| + |RowTokens(s)| + |s.polled| }

  predicate JobsDescend(s: State, t: State) {
    forall j :: j in t.jobs ==> j in s.jobs && Rank(t.jobs[j].status) <= Rank(s.jobs[j].status)
  }

  predicate RowsDescend(s: State, t: State) {
    forall r :: r in t.rows ==> r in s.rows && Weight(t.rows[r].status) <= Weight(s.rows[r].status)
  }

  lemma JobsLoad(s: State, t: State)
    requires JobsDescend(s, t)
    ensures |JobTokens(t)| <= |JobTokens(s)|
    ensures forall j :: j in s.jobs && j in t.jobs && Rank(t.jobs[j].status) < Rank(s.jobs[j].status)
              ==> |JobTokens(t)| < |JobTokens(s)|
  {
    SubsetSize(JobTokens(t), JobTokens(s));
    forall j | j in s.jobs && j in t.jobs && Rank(t.jobs[j].status) < Rank(s.jobs[j].status)
      ensures |JobTokens(t)| < |JobTokens(s)|
    {
      ProperSubsetSize(JobTokens(t), JobTokens(s), (j, Rank(t.jobs[j].status)));
    }
  }

  lemma RowsLoad(s: State, t: State)
    requires RowsDescend(s, t)
    ensures |RowTokens(t)| <= |RowTokens(s)|
    ensures forall r :: r in s.rows && r in t.rows && Weight(t.rows[r].status) < Weight(s.rows[r].status)
              ==> |RowTokens(t)| < |RowTokens(s)|
  {
    SubsetSize(RowTokens(t), RowTokens(s));
    forall r | r in s.rows && r in t.rows && Weight(t.rows[r].status) < Weight(s.rows[r].status)
      ensures |RowTokens(t)| < |RowTokens(s)|
    {
      ProperSubsetSize(RowTokens(t), RowTokens(s), (r, Weight(t.rows[r].status)));
    }
  }

  /** Steps that bring no new work and no restart. */
  predicate Quiet(t: Step) {
    !(t.Submit? || t.Retry? || t.Crash? || t.Resume?)
  }

  /** Quiet steps that only annotate a row: ids, stamps, a manually corrected outcome. */
  predicate Annotates(t: Step) {
    t.OpenStream? || t.Capture? || t.Reconcile?
  }

  lemma TickDescends(s: State, a: set<int>)
    requires a <= Having(s.rows, Queued)
    ensures JobsDescend(s, Sweep(Admitted(s, a))) && RowsDescend(s, Sweep(Admitted(s, a)))
    ensures s.rows.Keys == Sweep(Admitted(s, a)).rows.Keys && s.polled == Sweep(Admitted(s, a)).polled
    ensures forall r :: r in a ==>
      r in s.rows && Weight(Sweep(Admitted(s, a)).rows[r].status) < Weight(s.rows[r].status)
  {
    var m := Admitted(s, a);
    forall r | r in s.rows
      ensures r in m.rows && Weight(m.rows[r].status) <= Weight(s.rows[r].status)
      ensures r in a ==> Weight(m.rows[r].status) < Weight(s.rows[r].status)
    {
      assert r in a ==> r in Having(s.rows, Queued);
    }
    assert m.rows.Keys == s.rows.Keys && m.polled == s.polled;
    forall j | j in m.jobs ensures j in s.jobs && Rank(m.jobs[j].status) <= Rank(s.jobs[j].status) {}
    hide Admitted;
    SweepDescends(m);
    assert forall r :: r in a ==> r in s.rows by { assert forall r :: r in a ==> r in Having(s.rows, Queued); }
  }

  lemma SweepDescends(s: State)
    ensures JobsDescend(s, Sweep(s)) && Sweep(s).rows == s.rows && Sweep(s).polled == s.polled
  {
    hide Closable;
  }

  /** The jobs a tick closes. */
  function SweptJobs(s: State): set<int> {
    set j | j in s.jobs && Swept(s.jobs[j].status) && Closable(s, j)
  }

  lemma SweepNobody(s: State)
    requires SweptJobs(s) == {}
    ensures Sweep(s) == s
  {
    var t := Sweep(s);
    forall j | j in s.jobs ensures t.jobs[j] == s.jobs[j] {
      assert j !in SweptJobs(s);
    }
    assert t.jobs == s.jobs;
  }

  lemma SweepLowers(s: State, j: int)
    requires j in SweptJobs(s)
    ensures j in s.jobs && j in Sweep(s).jobs && Rank(Sweep(s).jobs[j].status) < Rank(s.jobs[j].status)
  {
  }

  lemma TickLoad(s: State, a: set<int>)
    requires a <= Having(s.rows, Queued)
    ensures Load(Sweep(Admitted(s, a))) <= Load(s)
    ensures Sweep(Admitted(s, a)) != s ==> Load(Sweep(Admitted(s, a))) < Load(s)
  {
    var t := Sweep(Admitted(s, a));
    TickDescends(s, a);
    JobsLoad(s, t);
    RowsLoad(s, t);
    if a != {} {
      var r := Member(a);
      assert Weight(t.rows[r].status) < Weight(s.rows[r].status);
    } else if t != s {
      AdmitNobody(s);
      if SweptJobs(s) == {} {
        SweepNobody(s);
      } else {
        var j := Member(SweptJobs(s));
        SweepLowers(s, j);
      }
    }
  }

  lemma AdmitNobody(s: State)
    ensures Admitted(s, {}) == s
  {
    assert Admitted(s, {}).jobs == s.jobs;
    assert Admitted(s, {}).rows == s.rows;
  }

  lemma RowStepRows(s: State, t: Step)
    requires Inv(s) && Enabled(s, t) && (Annotates(t) || t.Finish? || t.Abort? || t.Settle? || t.CancelRow?)
    ensures var u := Apply(s, t); RowsDescend(s, u) && u.jobs == s.jobs
    ensures t.Finish? || t.Abort? || (t.CancelRow? && Apply(s, t) != s) ==>
      Weight(Apply(s, t).rows[t.row].status) < Weight(s.rows[t.row].status)
    ensures Apply(s, t).polled == if t.Settle? then s.polled - {t.row} else s.polled
    ensures t.Settle? ==> t.row in s.polled
  {
    assert t.Finish? || t.Abort? ==> t.row in Having(s.rows, Running);
    hide RowsAccounted, JobsReported, Windowed, FinishedIsQuiet;
  }

  lemma RowStepLoad(s: State, t: Step)
    requires Inv(s) && Enabled(s, t) && (Annotates(t) || t.Finish? || t.Abort? || t.Settle? || t.CancelRow?)
    ensures Load(Apply(s, t)) <= Load(s)
    ensures !Annotates(t) && Apply(s, t) != s ==> Load(Apply(s, t)) < Load(s)
  {
    var u := Apply(s, t);
    RowStepRows(s, t);
    RowsLoad(s, u);
    assert JobTokens(u) == JobTokens(s);
  }

  lemma JobStepJobs(s: State, t: Step)
    requires Enabled(s, t) && (t.Close? || t.CancelJob? || t.Expire?)
    ensures var u := Apply(s, t);
      && u.rows == s.rows && u.polled == s.polled && JobsDescend(s, u)
      && (u != s ==> t.job in s.jobs && t.job in u.jobs && Rank(u.jobs[t.job].status) < Rank(s.jobs[t.job].status))
  {
    hide CountTotals, Of;
  }

  lemma JobStepLoad(s: State, t: Step)
    requires Enabled(s, t) && (t.Close? || t.CancelJob? || t.Expire?)
    ensures Load(Apply(s, t)) <= Load(s)
    ensures Apply(s, t) != s ==> Load(Apply(s, t)) < Load(s)
  {
    JobStepJobs(s, t);
    hide Apply, Enabled;
    var u := Apply(s, t);
    JobsLoad(s, u);
    assert RowTokens(u) == RowTokens(s);
  }

  /** Without submits, retries and restarts no step adds load, and every scheduling step that changes
      anything strictly lowers it. */
  lemma QuietStepLoad(s: State, t: Step)
    requires Inv(s) && Enabled(s, t) && Quiet(t)
    ensures Load(Apply(s, t)) <= Load(s)
    ensures !Annotates(t) && Apply(s, t) != s ==> Load(Apply(s, t)) < Load(s)
  {
    if t.Tick? {
      TickLoad(s, t.admitted);
    } else if t.Close? || t.CancelJob? || t.Expire? {
      JobStepLoad(s, t);
    } else {
      RowStepLoad(s, t);
    }
  }

  /** Number of steps in a run segment that changed the state by scheduling. */
  function Changes(states: seq<State>, steps: seq<Step>): nat
    requires |states| == |steps| + 1
  {
    if steps == [] then 0
    else (if !Annotates(steps[0]) && states[1] != states[0] then 1 else 0) + Changes(states[1..], steps[1..])
  }

  /** Draining is bounded: a run segment without new work makes at most Load(start) changes. */
  lemma {:induction false} DrainBound(states: seq<State>, steps: seq<Step>)
    requires |states| == |steps| + 1 && Inv(states[0])
    requires forall i :: 0 <= i < |steps| ==>
      Quiet(steps[i]) && Enabled(states[i], steps[i]) && states[i + 1] == Apply(states[i], steps[i])
    ensures Load(states[|steps|]) + Changes(states, steps) <= Load(states[0])
  {
    if steps != [] {
      StepKeeps(states[0], steps[0]);
      QuietStepLoad(states[0], steps[0]);
      var rest, more := states[1..], steps[1..];
      forall i | 0 <= i < |more|
        ensures Quiet(more[i]) && Enabled(rest[i], more[i]) && rest[i + 1] == Apply(rest[i], more[i])
      {
        assert more[i] == steps[i + 1] && rest[i] == states[i + 1] && rest[i + 1] == states[i + 2];
      }
      DrainBound(rest, more);
    }
  }

  predicate Terminal(st: JobStatus) { st == JFinished || st == JCancelled || st == JExpired }

  /** Where draining stops, everything is done: if no goroutine is left to finish a row and an
      admission round over due jobs changes nothing, every job is terminal. */
  lemma StuckMeansDone(s: State, a: set<int>, budget: int, j: int)
    requires Inv(s) && s.up && s.live == {} && s.polled == {} && budget >= 1
    requires Enabled(s, Tick(a, budget, s.jobs.Keys))
    requires Apply(s, Tick(a, budget, s.jobs.Keys)) == s
    requires j in s.jobs
    ensures Terminal(s.jobs[j].status)
  {
    TickStrandsNobody(s, a, j);
    assert Of(s.rows, j, Running) <= Having(s.rows, Running) <= s.live + s.polled;
    TickLoad(s, a);
    AdmittedRunning(s, a, j);
    assert Having(s.rows, Running) == Having(s.rows, Running) + a;
    assert |a| == 0;
  }
}
