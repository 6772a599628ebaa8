/** Every step keeps the scheduler's invariant, so it holds over every run with crashes. */
module SchedulerSafety {
  import opened FiniteSets
  import opened Scheduler

  /** No row enters the given status: every row of it in t has it in s already, under the same job. */
  predicate NoneEnters(s: State, t: State, st: RowStatus) {
    forall r :: r in t.rows && t.rows[r].status == st ==>
      r in s.rows && s.rows[r].status == st && s.rows[r].job == t.rows[r].job
  }

  lemma NoneEntersOf(s: State, t: State, j: int, st: RowStatus)
    requires NoneEnters(s, t, st)
    ensures Of(t.rows, j, st) <= Of(s.rows, j, st)
    ensures Having(t.rows, st) <= Having(s.rows, st)
  {
    forall r | r in Having(t.rows, st) ensures r in Having(s.rows, st) {
      assert t.rows[r].status == st;
    }
    forall r | r in Of(t.rows, j, st) ensures r in Of(s.rows, j, st) {
      assert t.rows[r].status == st;
    }
  }

  /** A step that moves no row into running keeps every window. */
  lemma WindowShrinks(s: State, t: State)
    requires Windowed(s)
    requires NoneEnters(s, t, Running)
    requires forall r :: r in s.rows ==> s.rows[r].job in s.jobs
    requires forall j :: j in s.jobs && j in t.jobs ==> s.jobs[j].concurrency == t.jobs[j].concurrency
    ensures Windowed(t)
  {
    forall j | j in t.jobs ensures |Of(t.rows, j, Running)| <= Max1(t.jobs[j].concurrency) {
      NoneEntersOf(s, t, j, Running);
      SubsetSize(Of(t.rows, j, Running), Of(s.rows, j, Running));
      if j !in s.jobs {
        assert forall r :: r in s.rows ==> s.rows[r].job != j;
        assert Of(s.rows, j, Running) == {};
      }
    }
  }

  lemma AdmittedRunning(s: State, a: set<int>, j: int)
    requires a <= Having(s.rows, Queued)
    ensures Of(Admitted(s, a).rows, j, Running) == Of(s.rows, j, Running) + a * Of(s.rows, j, Queued)
    ensures |Of(Admitted(s, a).rows, j, Running)| == |Of(s.rows, j, Running)| + |a * Of(s.rows, j, Queued)|
    ensures Having(Admitted(s, a).rows, Running) == Having(s.rows, Running) + a
    ensures |Having(Admitted(s, a).rows, Running)| == |Having(s.rows, Running)| + |a|
    ensures Of(Admitted(s, a).rows, j, Queued) == Of(s.rows, j, Queued) - a
  {
    var t := Admitted(s, a);
    forall r | r in s.rows
      ensures r in Of(t.rows, j, Running) <==> r in Of(s.rows, j, Running) + a * Of(s.rows, j, Queued)
      ensures r in Having(t.rows, Running) <==> r in Having(s.rows, Running) + a
      ensures r in Of(t.rows, j, Queued) <==> r in Of(s.rows, j, Queued) - a
    {
      assert t.rows[r] == if r in a then Dispatched(s.rows[r]) else s.rows[r];
      assert r in a ==> r in Having(s.rows, Queued);
    }
    assert t.rows.Keys == s.rows.Keys;
    UnionSize(Of(s.rows, j, Running), a * Of(s.rows, j, Queued));
    UnionSize(Having(s.rows, Running), a);
  }

  predicate Wakeful(st: RowStatus) { st == Queued || st == Running }

  /** No row of job j becomes live: every live row of j in t is a live row of j in s already. */
  predicate NoneWakes(s: State, t: State, j: int) {
    forall r :: r in t.rows && t.rows[r].job == j && Wakeful(t.rows[r].status) ==>
      r in s.rows && s.rows[r].job == j && Wakeful(s.rows[r].status)
  }

  lemma NoneWakesOf(s: State, t: State, j: int)
    requires NoneWakes(s, t, j)
    ensures Of(t.rows, j, Queued) + Of(t.rows, j, Running) <= Of(s.rows, j, Queued) + Of(s.rows, j, Running)
  {
    forall r | r in Of(t.rows, j, Queued) + Of(t.rows, j, Running)
      ensures r in Of(s.rows, j, Queued) + Of(s.rows, j, Running)
    {
      assert Wakeful(t.rows[r].status);
    }
  }

  /** Finished jobs stay quiet when no row of theirs wakes up. */
  lemma QuietShrinks(s: State, t: State)
    requires FinishedIsQuiet(s)
    requires forall j :: j in t.jobs && t.jobs[j].status == JFinished ==>
      j in s.jobs && s.jobs[j].status == JFinished && NoneWakes(s, t, j)
    ensures FinishedIsQuiet(t)
  {
    forall j | j in t.jobs && t.jobs[j].status == JFinished
      ensures Of(t.rows, j, Queued) == {} && Of(t.rows, j, Running) == {}
    {
      NoneWakesOf(s, t, j);
    }
  }

  lemma AdmittedWindows(s: State, a: set<int>, budget: int, due: set<int>)
    requires Windowed(s) && MayAdmit(s, a, budget, due)
    ensures Windowed(Admitted(s, a))
  {
    var t := Admitted(s, a);
    forall j | j in t.jobs ensures |Of(t.rows, j, Running)| <= Max1(t.jobs[j].concurrency) {
      AdmittedRunning(s, a, j);
      assert t.jobs[j].concurrency == s.jobs[j].concurrency;
      if a * Of(s.rows, j, Queued) == {} {
        assert Of(t.rows, j, Running) == Of(s.rows, j, Running);
      }
    }
  }

  lemma AdmittedQuiet(s: State, a: set<int>, budget: int, due: set<int>)
    requires FinishedIsQuiet(s) && MayAdmit(s, a, budget, due)
    ensures FinishedIsQuiet(Admitted(s, a))
  {
    var t := Admitted(s, a);
    forall j | j in t.jobs && t.jobs[j].status == JFinished
      ensures Of(t.rows, j, Queued) == {} && Of(t.rows, j, Running) == {}
    {
      AdmittedRunning(s, a, j);
      assert s.jobs[j].status == JFinished;
    }
  }

  lemma AdmittedRows(s: State, a: set<int>)
    requires RowsAccounted(s) && JobsReported(s) && a <= Having(s.rows, Queued)
    ensures RowsAccounted(Admitted(s, a)) && JobsReported(Admitted(s, a))
  {
    var t := Admitted(s, a);
    forall r | r in t.rows ensures t.rows[r].job in t.jobs && Accounted(t.rows[r]) {
      assert r in a ==> r in Having(s.rows, Queued);
    }
  }

  lemma AdmittedTracked(s: State, a: set<int>)
    requires Tracked(s) && s.up && a <= Having(s.rows, Queued)
    ensures Tracked(Admitted(s, a))
  {
    AdmittedRunning(s, a, 0);
    var t := Admitted(s, a);
    forall r | r in t.live ensures r !in t.polled {
      assert r in a ==> r in Having(s.rows, Queued);
    }
  }

  lemma AdmittedKeeps(s: State, a: set<int>, budget: int, due: set<int>)
    requires Inv(s) && s.up && MayAdmit(s, a, budget, due)
    ensures Inv(Admitted(s, a))
  {
    AdmittedWindows(s, a, budget, due);
    AdmittedQuiet(s, a, budget, due);
    AdmittedRows(s, a);
    AdmittedTracked(s, a);
    hide Admitted;
    hide Tracked;
  }

  lemma SweepKeeps(s: State)
    requires Inv(s)
    ensures Inv(Sweep(s))
  {
  }

  lemma FinalizeKeeps(s: State, j: int)
    requires Inv(s)
    ensures Inv(Finalize(s, j))
  {
  }

  /** Replacing one row by a terminal or equally running one. */
  lemma RowChangeKeeps(s: State, t: State, r: int)
    requires Inv(s) && s.up && r in s.rows
    requires t.jobs == s.jobs && t.up && t.rows.Keys == s.rows.Keys
    requires forall k :: k in s.rows && k != r ==> t.rows[k] == s.rows[k]
    requires t.rows[r].job == s.rows[r].job && Accounted(t.rows[r])
    requires t.rows[r].status != Queued || s.rows[r].status == Queued
    requires t.rows[r].status == Running ==> s.rows[r].status == Running
    requires Tracked(t)
    ensures Inv(t)
  {
    hide Accounted, Tracked, Windowed, FinishedIsQuiet;
    WindowShrinks(s, t);
    QuietShrinks(s, t);
  }

  /** The goroutines after row r leaves them, or keeps its place with an unchanged status. */
  lemma TrackedAfter(s: State, t: State, r: int)
    requires Tracked(s) && s.up && t.up && r in s.rows && t.rows.Keys == s.rows.Keys
    requires forall k :: k in s.rows && k != r ==> t.rows[k].status == s.rows[k].status
    requires
      || (t.live == s.live && t.polled == s.polled && t.rows[r].status == s.rows[r].status)
      || (t.live == s.live && t.polled == s.polled && r !in s.live && t.rows[r].status != Queued
        && t.rows[r].status != Running)
      || (t.live == s.live - {r} && t.polled == s.polled && r !in s.polled && t.rows[r].status != Queued
        && t.rows[r].status != Running)
      || (t.live == s.live && t.polled == s.polled - {r} && r !in s.live && t.rows[r].status != Queued
        && t.rows[r].status != Running)
    ensures Tracked(t)
  {
    forall k | k in t.live ensures k in Having(t.rows, Running) {
      assert k in Having(s.rows, Running);
    }
    forall k | k in Having(t.rows, Running) ensures k in t.live + t.polled {
      assert k in Having(s.rows, Running);
    }
  }

  lemma NewRowsWait(j: int, ids: seq<int>)
    ensures forall r :: r in NewRows(j, ids) <==> r in ids
    ensures forall r :: r in ids ==>
      NewRows(j, ids)[r].job == j && NewRows(j, ids)[r].status == Queued && Accounted(NewRows(j, ids)[r])
  {
  }

  /** A submit adds waiting rows of a new job and changes nothing else. */
  lemma SubmitAdds(s: State, t: Step)
    requires t.Submit? && Enabled(s, t)
    ensures var u := Apply(s, t);
      && u.rows == s.rows + NewRows(t.job, t.newRows) && (forall r :: r in t.newRows ==> r !in s.rows)
      && t.job !in s.jobs && u.jobs.Keys == s.jobs.Keys + {t.job}
      && u.jobs[t.job].status == JQueued && ReportedOnce(u.jobs[t.job])
      && (forall j :: j in s.jobs ==> u.jobs[j] == s.jobs[j])
      && u.live == s.live && u.polled == s.polled && u.up == s.up
  {
    hide NewRows;
  }

  lemma SubmitRows(s: State, t: Step)
    requires Inv(s) && t.Submit? && Enabled(s, t)
    ensures var u := Apply(s, t); RowsAccounted(u) && JobsReported(u)
    ensures var u := Apply(s, t); forall r :: r in u.rows ==>
      if r in s.rows then u.rows[r] == s.rows[r] else u.rows[r].status == Queued && u.rows[r].job == t.job
    ensures s.rows.Keys <= Apply(s, t).rows.Keys
  {
    SubmitAdds(s, t);
    NewRowsWait(t.job, t.newRows);
    assert RowsAccounted(s) && JobsReported(s);
    hide Inv, Apply, Enabled, NewRows, Accounted, ReportedOnce;
  }

  lemma SubmitKeeps(s: State, t: Step)
    requires Inv(s) && t.Submit? && Enabled(s, t)
    ensures Inv(Apply(s, t))
  {
    var u := Apply(s, t);
    SubmitRows(s, t);
    SubmitAdds(s, t);
    hide Apply, Enabled, NewRows, Accounted, ReportedOnce;
    SubmitWindows(s, u, t.job);
    SubmitTracked(s, u, t.job);
    hide RowsAccounted, JobsReported, Windowed, FinishedIsQuiet, Tracked;
  }

  /** Every row that is not new is unchanged, and the new ones wait. */
  predicate OnlyWaiting(s: State, u: State, j: int) {
    && s.rows.Keys <= u.rows.Keys
    && forall r :: r in u.rows ==>
      if r in s.rows then u.rows[r] == s.rows[r] else u.rows[r].status == Queued && u.rows[r].job == j
  }

  lemma SubmitWindows(s: State, u: State, j: int)
    requires RowsAccounted(s) && Windowed(s) && FinishedIsQuiet(s) && OnlyWaiting(s, u, j)
    requires j !in s.jobs && u.jobs.Keys == s.jobs.Keys + {j} && u.jobs[j].status == JQueued
    requires forall k :: k in s.jobs ==> u.jobs[k] == s.jobs[k]
    ensures Windowed(u) && FinishedIsQuiet(u)
  {
    hide Windowed, FinishedIsQuiet, Accounted;
    WindowShrinks(s, u);
    QuietShrinks(s, u);
  }

  lemma SubmitTracked(s: State, u: State, j: int)
    requires Tracked(s) && OnlyWaiting(s, u, j) && u.live == s.live && u.polled == s.polled && u.up == s.up
    ensures Tracked(u)
  {
    forall r ensures r in Having(u.rows, Running) <==> r in Having(s.rows, Running) {
      if r in s.rows { assert r in u.rows; }
    }
  }

  lemma RetryRows(s: State, j: int, st: set<RowStatus>)
    requires RowsAccounted(s) && JobsReported(s) && j in s.jobs
    ensures var t := RetryState(s, j, st); RowsAccounted(t) && JobsReported(t)
  {
  }

  lemma RetryQuiet(s: State, j: int, st: set<RowStatus>)
    requires FinishedIsQuiet(s) && j in s.jobs
    ensures FinishedIsQuiet(RetryState(s, j, st))
  {
    QuietShrinks(s, RetryState(s, j, st));
  }

  lemma RetryTracked(s: State, j: int, st: set<RowStatus>)
    requires Tracked(s) && s.up && Unowned(s, j, st)
    ensures Tracked(RetryState(s, j, st))
  {
    var t := RetryState(s, j, st);
    forall r | r in t.live ensures r in Having(t.rows, Running) {
      assert r in Having(s.rows, Running);
    }
    forall r | r in Having(t.rows, Running) ensures r in t.live + t.polled {
      assert r in Having(s.rows, Running);
    }
  }

  lemma RetryKeeps(s: State, j: int, st: set<RowStatus>)
    requires Inv(s) && s.up && j in s.jobs && Unowned(s, j, st)
    ensures Inv(RetryState(s, j, st))
  {
    RetryRows(s, j, st);
    RetryQuiet(s, j, st);
    RetryTracked(s, j, st);
    WindowShrinks(s, RetryState(s, j, st));
    hide RetryState;
    hide Tracked;
  }

  /** A retry may select any status: it keeps the invariant exactly when no selected row is still held
      by a goroutine, which rules out every running row. */
  lemma RetrySafeIffUnowned(s: State, j: int, st: set<RowStatus>)
    requires Inv(s) && s.up && j in s.jobs
    ensures Inv(RetryState(s, j, st)) <==> Unowned(s, j, st)
  {
    if Unowned(s, j, st) {
      RetryKeeps(s, j, st);
    } else {
      var t := RetryState(s, j, st);
      var r :| r in s.rows && s.rows[r].job == j && s.rows[r].status in st && (r in s.live || r in s.polled);
      assert t.rows[r].status == Queued;
      assert r !in Having(t.rows, Running);
    }
  }

  lemma RecoverQuiet(s: State)
    requires FinishedIsQuiet(s)
    ensures FinishedIsQuiet(RecoverState(s))
  {
    QuietShrinks(s, RecoverState(s));
  }

  lemma RecoverTracked(s: State)
    ensures Tracked(RecoverState(s))
  {
    var t := RecoverState(s);
    forall r | r in t.rows ensures r in Having(t.rows, Running) <==> r in t.polled {
      assert t.rows[r] == Recovered(s.rows[r]);
    }
  }

  /** Recovery decides every row left running exactly once: it goes on running and is followed, or is
      given up as lost with its start on record, or waits again having never started; no other row changes. */
  lemma RecoverySplits(s: State)
    ensures Resumable(s.rows) + Stuck(s.rows) + Unstarted(s.rows) == Having(s.rows, Running)
    ensures Resumable(s.rows) !! Stuck(s.rows) !! Unstarted(s.rows)
    ensures var t := RecoverState(s);
      && t.polled == Having(t.rows, Running) == Resumable(s.rows)
      && Having(t.rows, Untracked) == Having(s.rows, Untracked) + Stuck(s.rows)
      && Having(t.rows, Queued) == Having(s.rows, Queued) + Unstarted(s.rows)
      && forall r :: r in s.rows && r !in Stuck(s.rows) + Unstarted(s.rows) ==> t.rows[r] == s.rows[r]
  {
    var t := RecoverState(s);
    forall r | r in s.rows
      ensures r in Having(t.rows, Running) <==> r in Resumable(s.rows)
      ensures r in Having(t.rows, Untracked) <==> r in Having(s.rows, Untracked) + Stuck(s.rows)
      ensures r in Having(t.rows, Queued) <==> r in Having(s.rows, Queued) + Unstarted(s.rows)
    {
      assert t.rows[r] == Recovered(s.rows[r]);
    }
  }

  lemma RecoverRows(s: State)
    requires RowsAccounted(s) && JobsReported(s)
    ensures RowsAccounted(RecoverState(s)) && JobsReported(RecoverState(s))
    ensures NoneEnters(s, RecoverState(s), Running)
  {
  }

  lemma RecoverKeeps(s: State)
    requires Inv(s) && !s.up
    ensures Inv(RecoverState(s))
  {
    RecoverRows(s);
    RecoverQuiet(s);
    RecoverTracked(s);
    assert RecoverState(s).jobs == s.jobs;
    hide RecoverState;
    WindowShrinks(s, RecoverState(s));
  }

  lemma JobChangeKeeps(s: State, t: State)
    requires Inv(s) && t.rows == s.rows && t.live == s.live && t.polled == s.polled && t.up == s.up
    requires t.jobs.Keys == s.jobs.Keys
    requires forall j :: j in s.jobs ==> t.jobs[j].concurrency == s.jobs[j].concurrency && ReportedOnce(t.jobs[j])
    requires forall j :: j in s.jobs && t.jobs[j].status == JFinished ==> s.jobs[j].status == JFinished
    ensures Inv(t)
  {
  }

  lemma RowStepKeeps(s: State, t: Step, r: int)
    requires Inv(s) && Enabled(s, t)
    requires t.OpenStream? || t.Capture? || t.Finish? || t.Abort? || t.Settle? || t.Reconcile? || t.CancelRow?
    requires r == t.row
    ensures Inv(Apply(s, t))
  {
    hide Windowed, FinishedIsQuiet, JobsReported;
    var u := Apply(s, t);
    assert u.rows.Keys == s.rows.Keys;
    TrackedAfter(s, u, r);
    assert t.CancelRow? || s.rows[r].status != Queued || t.Reconcile?;
    RowChangeKeeps(s, u, r);
  }

  lemma StepKeeps(s: State, t: Step)
    requires Inv(s) && Enabled(s, t)
    ensures Inv(Apply(s, t))
  {
    hide Inv;
    match t
    case Submit(_, _, _, _, _) => SubmitKeeps(s, t);
    case Tick(a, budget, due) => AdmittedKeeps(s, a, budget, due); SweepKeeps(Admitted(s, a));
    case Close(j) => FinalizeKeeps(s, j);
    case CancelJob(j) => CancelKeeps(s, t);
    case Retry(j, st) => RetryKeeps(s, j, st);
    case Expire(j) => CancelKeeps(s, t);
    case Crash => CrashKeeps(s);
    case Resume => ResumeKeeps(s);
    case _ => RowStepKeeps(s, t, t.row);
  }

  lemma CancelKeeps(s: State, t: Step)
    requires Inv(s) && Enabled(s, t) && (t.CancelJob? || t.Expire?)
    ensures Inv(Apply(s, t))
  {
    JobChangeKeeps(s, Apply(s, t));
  }

  /** What following a recovered run writes: its outcome and its id, when it has one, to its row alone; settling also
      ends the following. A crash writes nothing and forgets who was at work. */
  lemma RunsFollowed(s: State, t: Step)
    requires Enabled(s, t) && (t.Settle? || t.Reconcile? || t.Crash?)
    ensures Apply(s, t).jobs == s.jobs
    ensures t.Crash? ==> Apply(s, t) == s.(live := {}, polled := {}, up := false)
    ensures !t.Crash? ==> (
      var was, now := s.rows[t.row], Apply(s, t).rows[t.row];
      && Apply(s, t).rows == s.rows[t.row := was.(status := now.status, ids := now.ids)]
      && now.ids == was.ids.(run := if t.run == "" then was.ids.run else t.run)
      && (t.outcome == Ok ==> now.status == Succeeded) && (t.outcome == PartlyOk ==> now.status == Partial)
      && (t.outcome == Failure ==> now.status == Failed) && (t.outcome == Lost ==> now.status == Untracked)
      && Apply(s, t).live == s.live && Apply(s, t).up == s.up
      && Apply(s, t).polled == if t.Settle? then s.polled - {t.row} else s.polled)
  {
  }

  lemma CrashKeeps(s: State)
    requires Inv(s)
    ensures Inv(s.(live := {}, polled := {}, up := false))
  {
  }

  lemma ResumeKeeps(s: State)
    requires Inv(s) && Enabled(s, Resume)
    ensures Inv(RecoverState(s))
  {
    RecoverKeeps(s);
  }

  /** What no guard rules out: a crash of a running process and the restart of a stopped one, every end of a dispatch
      that is under way or followed, and at any time a finalization, a cancel, an expiry and a retry of a job whose
      rows nobody holds. */
  lemma MayHappen(s: State, r: int, j: int, o: Outcome, run: string, ids: Handles, st: set<RowStatus>)
    requires r in s.rows && j in s.jobs
    ensures Enabled(s, Resume) <==> !s.up
    ensures s.up ==> (
      && Enabled(s, Crash) && Enabled(s, Close(j)) && Enabled(s, CancelRow(r)) && Enabled(s, CancelJob(j))
      && Enabled(s, Expire(j))
      && (r in s.live ==> Enabled(s, OpenStream(r)) && Enabled(s, Capture(r, ids)) && Enabled(s, Finish(r, o, run))
                          && Enabled(s, Abort(r)))
      && (r in s.polled ==> Enabled(s, Settle(r, o, run)))
      && ((forall k :: k in s.rows && s.rows[k].job == j ==> k !in s.live && k !in s.polled) ==>
          Enabled(s, Retry(j, st))))
  {
  }

  // ---------- whole runs ----------

  ghost predicate IsRun(states: seq<State>, steps: seq<Step>) {
    && |states| == |steps| + 1
    && states[0] == INIT
    && forall i :: 0 <= i < |steps| ==> Enabled(states[i], steps[i]) && states[i + 1] == Apply(states[i], steps[i])
  }

  lemma {:induction false} RunKeepsInv(states: seq<State>, steps: seq<Step>, i: nat)
    requires IsRun(states, steps) && i < |states|
    ensures Inv(states[i])
  {
    if i > 0 {
      RunKeepsInv(states, steps, i - 1);
      StepKeeps(states[i - 1], steps[i - 1]);
    }
  }

  /** No second paid run: a row with persisted evidence of having started goes back to the queue only
      by an explicit retry, whatever crashes in between. */
  lemma OnlyRetryRequeues(states: seq<State>, steps: seq<Step>, i: nat, r: int)
    requires IsRun(states, steps) && i < |steps|
    requires r in states[i].rows && r in states[i + 1].rows
    requires Evidence(states[i].rows[r]) && states[i].rows[r].status != Queued
    requires states[i + 1].rows[r].status == Queued
    ensures steps[i].Retry?
    ensures steps[i].job == states[i].rows[r].job && states[i].rows[r].status in steps[i].statuses
  {
    var s, t := states[i], steps[i];
    assert states[i + 1] == Apply(s, t);
  }

  /** A captured handle of a row's remote run is never lost: from then on it is there, perhaps with another value,
      until an explicit retry of the row drops all of them. */
  lemma HandlesKept(states: seq<State>, steps: seq<Step>, i: nat, r: int)
    requires IsRun(states, steps) && i < |steps| && r in states[i].rows
    ensures r in states[i + 1].rows
    ensures var was, now := states[i].rows[r], states[i + 1].rows[r];
      if steps[i].Retry? && steps[i].job == was.job && was.status in steps[i].statuses
      then now.ids == Handles("", "", "")
      else (was.ids.run != "" ==> now.ids.run != "") && (was.ids.conv != "" ==> now.ids.conv != "")
           && (was.ids.task != "" ==> now.ids.task != "")
  {
    var s, t := states[i], steps[i];
    assert states[i + 1] == Apply(s, t);
  }

  /** Dispatches and persisted starts of a row are bounded by its requeues and explicit retries. */
  lemma StartsBounded(states: seq<State>, steps: seq<Step>, i: nat, r: int)
    requires IsRun(states, steps) && i < |states| && r in states[i].rows
    ensures states[i].rows[r].dispatches <= 1 + states[i].rows[r].resets + states[i].rows[r].retries
    ensures states[i].rows[r].starts <= 1 + states[i].rows[r].retries
  {
    RunKeepsInv(states, steps, i);
  }

  lemma OnlyTickRuns(s: State, t: Step)
    requires Inv(s) && Enabled(s, t) && !t.Tick?
    ensures NoneEnters(s, Apply(s, t), Running)
  {
    assert t.Submit? ==> forall k :: k in t.newRows ==> k !in s.rows;
    hide Inv, MayAdmit, KeepsBusy, Closable, CountTotals;
  }

  /** A step that raises the number of running rows is an admission round that ends within its budget,
      and no job ever runs more rows than its window. */
  lemma BudgetAndWindow(states: seq<State>, steps: seq<Step>, i: nat, j: int)
    requires IsRun(states, steps) && i < |steps|
    ensures Windowed(states[i + 1])
    ensures var rows := states[i + 1].rows;
      var n := |set r | r in rows && rows[r].job == j && rows[r].status == Running|;
      j in states[i + 1].jobs ==> n <= 1 || n <= states[i + 1].jobs[j].concurrency
    ensures |Having(states[i + 1].rows, Running)| > |Having(states[i].rows, Running)|
            ==> steps[i].Tick? && |Having(states[i + 1].rows, Running)| <= steps[i].budget
  {
    RunKeepsInv(states, steps, i);
    RunKeepsInv(states, steps, i + 1);
    var s, t := states[i], steps[i];
    var u := Apply(s, t);
    if t.Tick? {
      AdmittedRunning(s, t.admitted, 0);
    } else {
      assert NoneEnters(s, u, Running) by { OnlyTickRuns(s, t); }
      NoneEntersOf(s, u, 0, Running);
      SubsetSize(Having(u.rows, Running), Having(s.rows, Running));
    }
  }

  // ---------- a retry of a row that is still being dispatched ----------

  const WAITING := Row(1, 0, Queued, NO_IDS, false, 0, 0, 0, 0, false)
  const ONE_ROW := Job(JQueued, 1, 0.0, false, Totals(1, 0, 0, 0), 0, 0)
  const SUBMITTED := State(map[1 := ONE_ROW], map[1 := WAITING], {}, {}, true)
  const DISPATCHED := State(map[1 := ONE_ROW.(status := JRunning)], map[1 := Dispatched(WAITING)], {1}, {}, true)
  const SUBMIT := Submit(1, [1], 1, 0.0, false)

  lemma SubmitOne()
    ensures Enabled(INIT, SUBMIT) && Apply(INIT, SUBMIT) == SUBMITTED
  {
    assert NewRows(1, [1]) == map[1 := WAITING];
  }

  lemma DispatchOne()
    ensures Enabled(SUBMITTED, Tick({1}, 1, {1})) && Apply(SUBMITTED, Tick({1}, 1, {1})) == DISPATCHED
  {
    MayDispatchOne();
    assert Admitted(SUBMITTED, {1}) == DISPATCHED;
    assert 1 in Of(DISPATCHED.rows, 1, Running);
    hide Admitted, MayAdmit, KeepsBusy, CountTotals;
  }

  lemma MayDispatchOne()
    ensures MayAdmit(SUBMITTED, {1}, 1, {1}) && KeepsBusy(SUBMITTED, {1}, 1, {1})
  {
    var s := SUBMITTED;
    assert Having(s.rows, Queued) == {1} && Having(s.rows, Running) == {};
    assert forall j :: Of(s.rows, j, Running) == {};
    assert Of(s.rows, 1, Queued) == {1} && {1} * Of(s.rows, 1, Queued) == {1};
  }

  /** One job with one row, dispatched and then retried with the running rows selected: the first dispatch
      still holds the row while it waits again, and the next tick may start it a second time beside it. */
  lemma RetryOfARunningRow()
    ensures IsRun([INIT, SUBMITTED, DISPATCHED], [SUBMIT, Tick({1}, 1, {1})])
    ensures !Unowned(DISPATCHED, 1, {Running})
    ensures var t := RetryState(DISPATCHED, 1, {Running});
      !Inv(t) && 1 in t.live && t.rows[1].status == Queued && MayAdmit(t, {1}, 1, {1})
  {
    RunOfTwo();
    RetriedOne();
  }

  lemma RunOfTwo()
    ensures IsRun([INIT, SUBMITTED, DISPATCHED], [SUBMIT, Tick({1}, 1, {1})])
  {
    SubmitOne();
    DispatchOne();
    hide Enabled, Apply, DISPATCHED, SUBMITTED;
  }

  lemma RetriedOne()
    ensures !Unowned(DISPATCHED, 1, {Running})
    ensures var t := RetryState(DISPATCHED, 1, {Running});
      !Inv(t) && 1 in t.live && t.rows[1].status == Queued && MayAdmit(t, {1}, 1, {1})
  {
    var t := RetryState(DISPATCHED, 1, {Running});
    assert t.rows == map[1 := Requeued(Dispatched(WAITING))];
    assert Having(t.rows, Queued) == {1} && Having(t.rows, Running) == {};
    assert Of(t.rows, 1, Queued) == {1} && Of(t.rows, 1, Running) == {} && {1} * Of(t.rows, 1, Queued) == {1};
    assert 1 in t.live && 1 !in Having(t.rows, Running);
    hide RetryState;
  }
}
