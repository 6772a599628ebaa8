/** Reader export jobs: submission against a daily quota, and every way a job moves on afterwards. */
module ReaderQuota {
  import TextOrder

  datatype Status = Queued | Running | Done | Failed | Canceled | Expired

  /** estimate is what the submit was charged; cap is where the worker stops. */
  datatype Job = Job(id: string, owner: string, createdAt: int, status: Status, estimate: nat, cap: nat, done: nat,
                     startedAt: int, finishedAt: int, expiresAt: int)

  predicate Active(st: Status) { st == Queued || st == Running }

  /** The estimate while a job is waiting or running, what it wrote once it has ended. */
  function Charge(j: Job): nat { if Active(j.status) then j.estimate else j.done }

  // ---------- days and charges ----------

  const DAY := 86_400_000

  /** The civil day of an instant in milliseconds, at a fixed offset from UTC. */
  function DayOf(t: int, offset: int): int { (t + offset) / DAY }

  function DayFrom(day: int, offset: int): int { day * DAY - offset }

  lemma InDay(t: int, day: int, offset: int)
    ensures DayFrom(day, offset) <= t < DayFrom(day + 1, offset) <==> DayOf(t, offset) == day
    ensures DayFrom(0, offset) + offset == 0 && DayFrom(day + 1, offset) == DayFrom(day, offset) + 24 * 3600 * 1000
  {
  }

  /** SUM over the jobs of one requester created in [from, to). */
  function Usage(jobs: seq<Job>, owner: string, from: int, to: int): nat {
    if jobs == [] then 0
    else
      var last := jobs[|jobs| - 1];
      var mine := last.owner == owner && from <= last.createdAt < to;
      Usage(jobs[..|jobs| - 1], owner, from, to) + if mine then Charge(last) else 0
  }

  function DayUsage(jobs: seq<Job>, owner: string, day: int, offset: int): nat {
    Usage(jobs, owner, DayFrom(day, offset), DayFrom(day + 1, offset))
  }

  function Part(j: Job, owner: string, from: int, to: int): nat {
    if j.owner == owner && from <= j.createdAt < to then Charge(j) else 0
  }

  lemma {:induction false} UsageAppend(a: seq<Job>, b: seq<Job>, owner: string, from: int, to: int)
    ensures Usage(a + b, owner, from, to) == Usage(a, owner, from, to) + Usage(b, owner, from, to)
  {
    if b == [] {
      assert a + b == a;
    } else {
      var n := |b| - 1;
      UsageAppend(a, b[..n], owner, from, to);
      assert (a + b)[..|a + b| - 1] == a + b[..n];
    }
  }

  lemma UsageOne(j: Job, owner: string, from: int, to: int)
    ensures Usage([j], owner, from, to) == Part(j, owner, from, to)
  {
    assert [j][..0] == [];
  }

  lemma UsageSplit(jobs: seq<Job>, i: nat, owner: string, from: int, to: int)
    requires i < |jobs|
    ensures Usage(jobs, owner, from, to)
            == Usage(jobs[..i], owner, from, to) + Part(jobs[i], owner, from, to)
               + Usage(jobs[i + 1..], owner, from, to)
  {
    assert jobs == jobs[..i] + ([jobs[i]] + jobs[i + 1..]);
    UsageAppend(jobs[..i], [jobs[i]] + jobs[i + 1..], owner, from, to);
    UsageAppend([jobs[i]], jobs[i + 1..], owner, from, to);
    UsageOne(jobs[i], owner, from, to);
  }

  /** The charges of a window are a sum with one addend per job, whatever job is taken out first: a requester's own
      job made in the window adds its estimate while it waits or runs and afterwards the rows it wrote, any other job
      nothing. The rows delivered are the same sum of rows written. */
  lemma UsageSums(jobs: seq<Job>, i: nat, owner: string, from: int, to: int)
    requires i < |jobs|
    ensures Usage([], owner, from, to) == 0 && Delivered([], owner, from, to) == 0
    ensures var rest := jobs[..i] + jobs[i + 1..]; var j := jobs[i];
      var mine := j.owner == owner && from <= j.createdAt && j.createdAt < to;
      && Usage(jobs, owner, from, to) - Usage(rest, owner, from, to)
         == (if !mine then 0 else if j.status in {Queued, Running} then j.estimate else j.done)
      && Delivered(jobs, owner, from, to) - Delivered(rest, owner, from, to) == if mine then j.done else 0
  {
    UsageRemove(jobs, i, owner, from, to);
    DeliveredRemove(jobs, i, owner, from, to);
  }

  lemma {:induction false} DeliveredAppend(a: seq<Job>, b: seq<Job>, owner: string, from: int, to: int)
    ensures Delivered(a + b, owner, from, to) == Delivered(a, owner, from, to) + Delivered(b, owner, from, to)
  {
    if b == [] {
      assert a + b == a;
    } else {
      var n := |b| - 1;
      DeliveredAppend(a, b[..n], owner, from, to);
      assert (a + b)[..|a + b| - 1] == a + b[..n];
    }
  }

  lemma DeliveredRemove(jobs: seq<Job>, i: nat, owner: string, from: int, to: int)
    requires i < |jobs|
    ensures var j := jobs[i]; var mine := j.owner == owner && from <= j.createdAt < to;
      Delivered(jobs[..i] + jobs[i + 1..], owner, from, to) + (if mine then j.done else 0)
      == Delivered(jobs, owner, from, to)
  {
    var j := jobs[i];
    assert [j][..0] == [];
    assert jobs == jobs[..i] + ([j] + jobs[i + 1..]);
    DeliveredAppend(jobs[..i], [j] + jobs[i + 1..], owner, from, to);
    DeliveredAppend([j], jobs[i + 1..], owner, from, to);
    DeliveredAppend(jobs[..i], jobs[i + 1..], owner, from, to);
  }

  lemma UsageRemove(jobs: seq<Job>, i: nat, owner: string, from: int, to: int)
    requires i < |jobs|
    ensures Usage(jobs[..i] + jobs[i + 1..], owner, from, to) + Part(jobs[i], owner, from, to)
      == Usage(jobs, owner, from, to)
  {
    UsageSplit(jobs, i, owner, from, to);
    UsageAppend(jobs[..i], jobs[i + 1..], owner, from, to);
  }

  lemma {:induction false} UsageMono(a: seq<Job>, b: seq<Job>, owner: string, from: int, to: int)
    requires |a| == |b|
    requires forall i :: 0 <= i < |a| ==>
      a[i].owner == b[i].owner && a[i].createdAt == b[i].createdAt && Charge(b[i]) <= Charge(a[i])
    ensures Usage(b, owner, from, to) <= Usage(a, owner, from, to)
  {
    if a != [] { UsageMono(a[..|a| - 1], b[..|b| - 1], owner, from, to); }
  }

  // ---------- steps ----------

  datatype Step =
    | Submit(id: string, owner: string, created: int, checked: int, count: nat)
    | Claim(i: nat, now: int)
    | Progress(i: nat, rows: nat)
    | Finish(i: nat, how: Status, rows: nat, now: int)
    | CancelQueued(i: nat, now: int)
    | CloseRunning(i: nat, now: int)
    | Expire(i: nat)
    | Recover
    | Sweep(i: nat, now: int)

  const FILE_TTL := 7 * DAY
  const ROW_TTL := 90 * DAY

  /** Older submissions first, ids as text breaking ties. */
  predicate Before(a: Job, b: Job) {
    a.createdAt < b.createdAt || (a.createdAt == b.createdAt && TextOrder.Less(a.id, b.id))
  }

  predicate Oldest(jobs: seq<Job>, i: nat) {
    && i < |jobs| && jobs[i].status == Queued
    && forall k :: 0 <= k < |jobs| && jobs[k].status == Queued ==> !Before(jobs[k], jobs[i])
  }

  /** The submit reads the clock for created_at first and for the day it checks afterwards. The worker
      never counts more rows than the cap. */
  predicate Enabled(jobs: seq<Job>, quota: int, offset: int, t: Step) {
    match t
    case Submit(id, owner, created, checked, count) =>
      var day := DayOf(checked, offset);
      && (forall i :: 0 <= i < |jobs| ==> jobs[i].id != id)
      && created <= checked && count > 0
      && DayUsage(jobs, owner, day, offset) + count <= quota
    case Claim(i, _) => Oldest(jobs, i)
    case Progress(i, rows) => i < |jobs| && jobs[i].status == Running && rows <= jobs[i].cap
    case Finish(i, how, rows, _) =>
      i < |jobs| && jobs[i].status == Running && how in {Done, Failed, Canceled} && rows <= jobs[i].cap
    case CancelQueued(i, _) => i < |jobs| && jobs[i].status == Queued
    case CloseRunning(i, _) => i < |jobs| && jobs[i].status == Running
    case Expire(i) => i < |jobs| && jobs[i].status == Done
    case Recover => true
    case Sweep(i, now) => i < |jobs| && !Active(jobs[i].status) && jobs[i].createdAt < now - ROW_TTL
  }

  function Requeued(j: Job): Job {
    if j.status == Running then j.(status := Queued, startedAt := 0, done := 0) else j
  }

  function RecoverAll(jobs: seq<Job>): (r: seq<Job>)
    ensures |r| == |jobs| && forall i :: 0 <= i < |jobs| ==> r[i] == Requeued(jobs[i])
  {
    seq(|jobs|, i requires 0 <= i < |jobs| => Requeued(jobs[i]))
  }

  function NewJob(id: string, owner: string, created: int, count: nat): Job {
    Job(id, owner, created, Queued, count, count, 0, 0, 0, 0)
  }

  function Apply(jobs: seq<Job>, quota: int, offset: int, t: Step): seq<Job>
    requires Enabled(jobs, quota, offset, t)
  {
    match t
    case Submit(id, owner, created, _, count) => jobs + [NewJob(id, owner, created, count)]
    case Claim(i, now) => jobs[i := jobs[i].(status := Running, startedAt := now, done := 0)]
    case Progress(i, rows) => jobs[i := jobs[i].(done := rows)]
    case Finish(i, how, rows, now) =>
      jobs[i := jobs[i].(status := how, finishedAt := now, done := rows,
                         expiresAt := if how == Done then now + FILE_TTL else jobs[i].expiresAt)]
    case CancelQueued(i, now) => jobs[i := jobs[i].(status := Canceled, finishedAt := now)]
    case CloseRunning(i, now) => jobs[i := jobs[i].(status := Canceled, finishedAt := now)]
    case Expire(i) => jobs[i := jobs[i].(status := Expired)]
    case Recover => RecoverAll(jobs)
    case Sweep(i, _) => jobs[..i] + jobs[i + 1..]
  }

  /** What no guard rules out: recovery at any time, a running job that writes up to its cap, ends in any way or is
      closed, and the end of a file or of an old row. */
  lemma MayHappen(jobs: seq<Job>, quota: int, offset: int, i: nat, rows: nat, now: int)
    requires i < |jobs|
    ensures Enabled(jobs, quota, offset, Recover)
    ensures jobs[i].status == Running ==>
      && Enabled(jobs, quota, offset, CloseRunning(i, now))
      && (rows <= jobs[i].cap ==> Enabled(jobs, quota, offset, Progress(i, rows)))
      && (rows <= jobs[i].cap ==>
          forall how :: how in {Done, Failed, Canceled} ==> Enabled(jobs, quota, offset, Finish(i, how, rows, now)))
    ensures jobs[i].status == Queued ==> Enabled(jobs, quota, offset, CancelQueued(i, now))
    ensures jobs[i].status == Done ==> Enabled(jobs, quota, offset, Expire(i))
  {
  }

  // ---------- safety ----------

  /** The worker's contract as stored: never past the cap, which is the estimate charged. */
  predicate JobsOk(jobs: seq<Job>) {
    forall i :: 0 <= i < |jobs| ==>
      jobs[i].cap == jobs[i].estimate && jobs[i].done <= jobs[i].cap && (jobs[i].status == Queued ==> jobs[i].done == 0)
  }

  predicate UniqueIds(jobs: seq<Job>) { forall i, k :: 0 <= i < k < |jobs| ==> jobs[i].id != jobs[k].id }

  ghost predicate WithinQuota(jobs: seq<Job>, quota: int, offset: int) {
    forall owner: string, day: int :: DayUsage(jobs, owner, day, offset) <= quota
  }

  ghost predicate Inv(jobs: seq<Job>, quota: int, offset: int) {
    JobsOk(jobs) && UniqueIds(jobs) && WithinQuota(jobs, quota, offset)
  }

  /** The submit's two clock readings fall on one civil day. */
  predicate SameDay(t: Step, offset: int) {
    t.Submit? ==> DayOf(t.created, offset) == DayOf(t.checked, offset)
  }

  /** A step that neither adds nor removes a job keeps every id, and every job within its cap. */
  lemma MoveOk(jobs: seq<Job>, quota: int, offset: int, t: Step)
    requires JobsOk(jobs) && Enabled(jobs, quota, offset, t) && !t.Submit? && !t.Sweep?
    ensures var after := Apply(jobs, quota, offset, t);
      |after| == |jobs| && JobsOk(after) && forall k :: 0 <= k < |jobs| ==> after[k].id == jobs[k].id
  {
    hide DayUsage, Before;
  }

  lemma SweepOk(jobs: seq<Job>, i: nat)
    requires JobsOk(jobs) && UniqueIds(jobs) && i < |jobs|
    ensures JobsOk(jobs[..i] + jobs[i + 1..]) && UniqueIds(jobs[..i] + jobs[i + 1..])
  {
    var after := jobs[..i] + jobs[i + 1..];
    assert forall k :: 0 <= k < |after| ==> after[k] == jobs[if k < i then k else k + 1];
  }

  lemma JobsStayOk(jobs: seq<Job>, quota: int, offset: int, t: Step)
    requires JobsOk(jobs) && UniqueIds(jobs) && Enabled(jobs, quota, offset, t)
    ensures JobsOk(Apply(jobs, quota, offset, t)) && UniqueIds(Apply(jobs, quota, offset, t))
  {
    if t.Sweep? {
      SweepOk(jobs, t.i);
    } else if !t.Submit? {
      MoveOk(jobs, quota, offset, t);
      hide Apply, JobsOk;
    } else {
      hide DayUsage;
    }
  }

  /** No step raises what a job is charged, so what has been admitted never grows. */
  lemma ChargeNeverRises(jobs: seq<Job>, quota: int, offset: int, t: Step, i: nat, k: nat)
    requires JobsOk(jobs) && UniqueIds(jobs) && Enabled(jobs, quota, offset, t)
    requires i < |jobs| && k < |Apply(jobs, quota, offset, t)| && Apply(jobs, quota, offset, t)[k].id == jobs[i].id
    ensures var after := Apply(jobs, quota, offset, t)[k];
      Charge(after) <= Charge(jobs[i]) && after.owner == jobs[i].owner && after.createdAt == jobs[i].createdAt
  {
    if t.Sweep? {
      var r := Apply(jobs, quota, offset, t);
      assert r[k] == jobs[if k < t.i then k else k + 1];
    }
  }

  lemma MovesKeepQuota(jobs: seq<Job>, quota: int, offset: int, t: Step, owner: string, from: int, to: int)
    requires JobsOk(jobs) && UniqueIds(jobs) && Enabled(jobs, quota, offset, t) && !t.Submit?
    ensures Usage(Apply(jobs, quota, offset, t), owner, from, to) <= Usage(jobs, owner, from, to)
  {
    var after := Apply(jobs, quota, offset, t);
    if t.Sweep? {
      UsageRemove(jobs, t.i, owner, from, to);
    } else {
      UsageMono(jobs, after, owner, from, to);
    }
  }

  lemma SubmitAdds(jobs: seq<Job>, quota: int, offset: int, t: Step, owner: string, day: int)
    requires Enabled(jobs, quota, offset, t) && t.Submit?
    ensures DayUsage(Apply(jobs, quota, offset, t), owner, day, offset)
      == DayUsage(jobs, owner, day, offset)
         + (if owner == t.owner && DayOf(t.created, offset) == day then t.count else 0)
  {
    InDay(t.created, day, offset);
    var after := Apply(jobs, quota, offset, t);
    assert after[..|after| - 1] == jobs;
  }

  /** Every step keeps every requester within the quota on every day. */
  lemma StepKeeps(jobs: seq<Job>, quota: int, offset: int, t: Step)
    requires Inv(jobs, quota, offset) && Enabled(jobs, quota, offset, t) && SameDay(t, offset)
    ensures Inv(Apply(jobs, quota, offset, t), quota, offset)
  {
    JobsStayOk(jobs, quota, offset, t);
    forall owner: string, day: int
      ensures DayUsage(Apply(jobs, quota, offset, t), owner, day, offset) <= quota
    {
      assert DayUsage(jobs, owner, day, offset) <= quota;
      if t.Submit? {
        SubmitAdds(jobs, quota, offset, t, owner, day);
      } else {
        MovesKeepQuota(jobs, quota, offset, t, owner, DayFrom(day, offset), DayFrom(day + 1, offset));
      }
    }
  }

  ghost predicate IsRun(states: seq<seq<Job>>, steps: seq<Step>, quota: int, offset: int) {
    && |states| == |steps| + 1 && states[0] == []
    && forall i :: 0 <= i < |steps| ==>
      Enabled(states[i], quota, offset, steps[i]) && SameDay(steps[i], offset)
      && states[i + 1] == Apply(states[i], quota, offset, steps[i])
  }

  /** Rows written by the jobs of one requester created on one day. */
  function Delivered(jobs: seq<Job>, owner: string, from: int, to: int): nat {
    if jobs == [] then 0
    else
      var last := jobs[|jobs| - 1];
      var mine := last.owner == owner && from <= last.createdAt < to;
      Delivered(jobs[..|jobs| - 1], owner, from, to) + if mine then last.done else 0
  }

  lemma {:induction false} DeliveredWithinUsage(jobs: seq<Job>, owner: string, from: int, to: int)
    requires JobsOk(jobs)
    ensures Delivered(jobs, owner, from, to) <= Usage(jobs, owner, from, to)
  {
    if jobs != [] { DeliveredWithinUsage(jobs[..|jobs| - 1], owner, from, to); }
  }

  /** The quota theorem: over every run of submits, claims, progress, cancels, expiries, crashes and
      sweeps, neither the charges nor the rows delivered of a day's jobs exceed the quota. */
  lemma {:induction false} QuotaHolds(states: seq<seq<Job>>, steps: seq<Step>, quota: nat, offset: int, i: nat,
                                      owner: string, day: int)
    requires IsRun(states, steps, quota, offset) && i < |states|
    ensures Inv(states[i], quota, offset)
    ensures DayUsage(states[i], owner, day, offset) <= quota
    ensures Delivered(states[i], owner, DayFrom(day, offset), DayFrom(day + 1, offset)) <= quota
  {
    if i > 0 {
      QuotaHolds(states, steps, quota, offset, i - 1, owner, day);
      var s, t := states[i - 1], steps[i - 1];
      assert Enabled(s, quota, offset, t) && SameDay(t, offset);
      StepKeeps(s, quota, offset, t);
      assert states[i - 1 + 1] == Apply(s, quota, offset, t);
    }
    DeliveredWithinUsage(states[i], owner, DayFrom(day, offset), DayFrom(day + 1, offset));
  }

  /** A submit is safe from every state within the quota. */
  ghost predicate AlwaysSafe(quota: int, offset: int, t: Step) {
    forall jobs: seq<Job> :: Inv(jobs, quota, offset) && Enabled(jobs, quota, offset, t) ==>
      Inv(Apply(jobs, quota, offset, t), quota, offset)
  }

  /** The check protects the quota exactly when both clock readings fall on one day; a submit that
      straddles midnight is checked against the new day and charged to the old one. */
  lemma SafeExactly(quota: nat, offset: int, t: Step)
    requires t.Submit? && 0 < t.count <= quota && t.created <= t.checked
    ensures AlwaysSafe(quota, offset, t) <==> SameDay(t, offset)
  {
    if SameDay(t, offset) {
      forall jobs: seq<Job> | Inv(jobs, quota, offset) && Enabled(jobs, quota, offset, t)
        ensures Inv(Apply(jobs, quota, offset, t), quota, offset)
      {
        StepKeeps(jobs, quota, offset, t);
      }
    } else {
      FullDay(quota, offset, t);
      hide *;
      var jobs := [NewJob(t.id + "x", t.owner, t.created, quota)];
      assert Inv(jobs, quota, offset) && Enabled(jobs, quota, offset, t);
    }
  }

  /** The failing case: a day already charged up to the quota, and a submit stamped on that day but
      checked on the next. */
  lemma FullDay(quota: nat, offset: int, t: Step)
    requires t.Submit? && 0 < t.count <= quota && t.created <= t.checked && !SameDay(t, offset)
    ensures var jobs := [NewJob(t.id + "x", t.owner, t.created, quota)];
      && Inv(jobs, quota, offset) && Enabled(jobs, quota, offset, t)
      && !Inv(Apply(jobs, quota, offset, t), quota, offset)
  {
    var full := NewJob(t.id + "x", t.owner, t.created, quota);
    var jobs := [full];
    var day := DayOf(t.created, offset);
    assert jobs[..0] == [];
    forall owner: string, d: int
      ensures DayUsage(jobs, owner, d, offset) == if owner == t.owner && d == day then quota else 0
    {
      InDay(t.created, d, offset);
      UsageOne(full, owner, DayFrom(d, offset), DayFrom(d + 1, offset));
    }
    assert full.id != t.id by { assert |full.id| == |t.id| + 1; }
    assert Inv(jobs, quota, offset) && Enabled(jobs, quota, offset, t);
    SubmitAdds(jobs, quota, offset, t, t.owner, day);
    assert DayUsage(Apply(jobs, quota, offset, t), t.owner, day, offset) > quota;
  }
}
