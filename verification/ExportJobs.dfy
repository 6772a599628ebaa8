/** The export job table as its handlers and its worker change it: each move is one conditional update,
    whatever happened to the job since it was read. */
module ExportJobs {
  import opened Options
  import opened ReaderQuota
  import TextOrder

  predicate HasId(jobs: seq<Job>, i: nat, id: string) { i < |jobs| && jobs[i].id == id }

  ghost predicate Listed(jobs: seq<Job>, id: string) { exists i: nat :: HasId(jobs, i, id) }

  /** Same rows in the same places, the given one excepted. */
  predicate OnlyAt(before: seq<Job>, after: seq<Job>, i: nat) {
    |before| == |after| && forall k :: 0 <= k < |before| && k != i ==> after[k] == before[k]
  }

  /** What the cancels that arrive while a claim is under way may have done to one row. */
  predicate CanceledMeanwhile(before: Job, after: Job, cancels: seq<string>) {
    || after == before
    || (&& before.status == Queued && before.id in cancels
        && after == before.(status := Canceled, finishedAt := after.finishedAt))
  }

  datatype Code = Ok | NotFound | Conflict | Gone | Refused | NoAccount

  class Table {
    var jobs: seq<Job>

    /** Jobs whose worker has registered a way to be stopped, and those asked to stop. */
    var registered: set<string>
    var asked: set<string>

    constructor (jobs: seq<Job>)
      ensures this.jobs == jobs && registered == {} && asked == {}
    {
      this.jobs, registered, asked := jobs, {}, {};
    }

    method Find(id: string) returns (i: nat)
      ensures i <= |jobs| && (i < |jobs| ==> HasId(jobs, i, id))
      ensures i == |jobs| ==> forall k :: 0 <= k < |jobs| ==> jobs[k].id != id
    {
      i := 0;
      while i < |jobs|
        invariant 0 <= i <= |jobs|
        invariant forall k :: 0 <= k < i ==> jobs[k].id != id
      {
        if jobs[i].id == id { return; }
        i := i + 1;
      }
    }

    method UsageOf(owner: string, from: int, to: int) returns (n: nat)
      ensures n == Usage(jobs, owner, from, to)
    {
      n := 0;
      var i := 0;
      while i < |jobs|
        invariant 0 <= i <= |jobs| && n == Usage(jobs[..i], owner, from, to)
      {
        assert jobs[..i + 1][..i] == jobs[..i];
        if jobs[i].owner == owner && from <= jobs[i].createdAt < to {
          n := n + if Active(jobs[i].status) then jobs[i].estimate else jobs[i].done;
        }
        i := i + 1;
      }
      assert jobs[..i] == jobs;
    }

    /** Checks the day's charges and inserts the job in one transaction; the job is created before the
        day is read. A requester whose account is gone when the transaction looks inserts nothing. */
    method Submit(id: string, owner: string, accounts: set<string>, created: int, checked: int, offset: int, count: nat,
                  quota: int)
      returns (code: Code, used: nat)
      requires created <= checked && count > 0
      requires forall i :: 0 <= i < |jobs| ==> jobs[i].id != id
      modifies this`jobs
      ensures code == NoAccount <==> owner !in accounts
      ensures used == if owner in accounts then DayUsage(old(jobs), owner, DayOf(checked, offset), offset) else 0
      ensures code == Refused <==> owner in accounts && used + count > quota
      ensures code in {NoAccount, Refused} ==> jobs == old(jobs)
      ensures code !in {NoAccount, Refused} ==>
        var t := Step.Submit(id, owner, created, checked, count);
        && code == Ok && Enabled(old(jobs), quota, offset, t) && jobs == Apply(old(jobs), quota, offset, t)
        && jobs == old(jobs) + [Job(id, owner, created, Queued, count, count, 0, 0, 0, 0)]
    {
      if owner !in accounts { return NoAccount, 0; }
      var day := DayOf(checked, offset);
      used := UsageOf(owner, DayFrom(day, offset), DayFrom(day + 1, offset));
      if used + count > quota { return Refused, used; }
      jobs := jobs + [NewJob(id, owner, created, count)];
      code := Ok;
    }

    method OldestQueued() returns (best: Option<nat>)
      ensures best.None? <==> forall k :: 0 <= k < |jobs| ==> jobs[k].status != Queued
      ensures best.Some? ==> Oldest(jobs, best.value)
    {
      best := None;
      var i := 0;
      while i < |jobs|
        invariant 0 <= i <= |jobs|
        invariant best.None? <==> forall k :: 0 <= k < i ==> jobs[k].status != Queued
        invariant best.Some? ==> best.value < i && jobs[best.value].status == Queued
        invariant best.Some? ==> forall k :: 0 <= k < i && jobs[k].status == Queued ==>
          !Before(jobs[k], jobs[best.value])
      {
        if jobs[i].status == Queued {
          if best.None? || Before(jobs[i], jobs[best.value]) {
            forall k | 0 <= k < i + 1 && jobs[k].status == Queued ensures !Before(jobs[k], jobs[i]) {
              BeforeOrder(jobs[i], jobs[k]);
              if best.Some? && k < i { BeforeChain(jobs[k], jobs[i], jobs[best.value]); }
            }
            best := Some(i);
          }
        }
        i := i + 1;
      }
    }

    /** Claims the oldest queued job. cancels are the cancels that land, one per round, between the read
        and the conditional update; a job cancelled there is skipped. */
    method ClaimNext(now: int, cancels: seq<string>) returns (claimed: Option<nat>)
      requires UniqueIds(jobs)
      modifies this`jobs
      ensures |jobs| == |old(jobs)|
      ensures claimed.None? ==> forall k :: 0 <= k < |jobs| ==> jobs[k].status != Queued
      ensures claimed.Some? ==>
        && claimed.value < |jobs| && old(jobs)[claimed.value].status == Queued
        && jobs[claimed.value] == old(jobs)[claimed.value].(status := Running, startedAt := now, done := 0)
        && forall k :: 0 <= k < |jobs| && jobs[k].status == Queued ==>
          && jobs[claimed.value].createdAt <= jobs[k].createdAt
          && (jobs[k].createdAt == jobs[claimed.value].createdAt ==>
              !TextOrder.Less(jobs[k].id, jobs[claimed.value].id))
      ensures forall k :: 0 <= k < |jobs| && claimed != Some(k) ==>
        || jobs[k] == old(jobs)[k]
        || (&& old(jobs)[k].status == Queued && old(jobs)[k].id in cancels
            && jobs[k] == old(jobs)[k].(status := Canceled, finishedAt := jobs[k].finishedAt))
    {
      var round := 0;
      while true
        invariant 0 <= round <= |cancels| && |jobs| == |old(jobs)|
        invariant forall k :: 0 <= k < |jobs| ==> CanceledMeanwhile(old(jobs)[k], jobs[k], cancels)
        decreases |cancels| - round
      {
        var best := OldestQueued();
        if best.None? { return None; }
        var i := best.value;
        ghost var read := jobs;
        if round < |cancels| {
          CancelIfQueued(cancels[round], now);
        }
        if jobs[i].status == Queued {
          jobs := jobs[i := jobs[i].(status := Running, startedAt := now, done := 0)];
          return Some(i);
        }
        round := round + 1;
      }
    }

    /** UPDATE … SET status='canceled' WHERE id=? AND status='queued'. */
    method CancelIfQueued(id: string, now: int)
      modifies this`jobs
      ensures |jobs| == |old(jobs)|
      ensures forall k :: 0 <= k < |jobs| ==>
        jobs[k] == old(jobs)[k] ||
        (old(jobs)[k].id == id && old(jobs)[k].status == Queued
          && jobs[k] == old(jobs)[k].(status := Canceled, finishedAt := now))
      ensures (forall k :: 0 <= k < |jobs| && jobs[k].id == id ==> old(jobs)[k].status != Queued) ==> jobs == old(jobs)
      ensures UniqueIds(old(jobs)) ==> forall k :: 0 <= k < |jobs| && jobs[k].id == id ==> jobs[k].status != Queued
    {
      var i := Find(id);
      if i < |jobs| && jobs[i].status == Queued {
        jobs := jobs[i := jobs[i].(status := Canceled, finishedAt := now)];
      }
    }

    /** The cancel handler. during is the table as the conditional update finds it, after anything that
        happened since the job was first read. */
    method Cancel(id: string, now: int, during: seq<Job>) returns (code: Code)
      requires UniqueIds(jobs) && UniqueIds(during)
      modifies this`jobs, this`asked
      ensures code in {Ok, NotFound, Conflict}
      ensures code != Ok ==> jobs == during
      ensures code == Conflict ==> asked == old(asked)
      ensures |jobs| == |during|
      ensures forall k :: 0 <= k < |jobs| ==>
        jobs[k] == during[k] ||
        (during[k].id == id && during[k].status in {Queued, Running}
          && jobs[k] == during[k].(status := Canceled, finishedAt := now))
      ensures code == NotFound <==>
        || !Listed(old(jobs), id)
        || (!Listed(during, id) && exists i: nat :: HasId(old(jobs), i, id) && old(jobs)[i].status in {Queued, Running})
      ensures forall i: nat, k: nat ::
        && HasId(old(jobs), i, id) && HasId(during, k, id)
        && old(jobs)[i].status == Queued && during[k].status in {Queued, Running} ==>
        code == Ok && (jobs[k].status == Canceled || (during[k].status == Running && id in registered && id in asked))
      ensures forall i: nat :: HasId(old(jobs), i, id) && old(jobs)[i].status in {Done, Failed, Canceled, Expired} ==>
        code == Conflict
    {
      var at := Find(id);
      if at == |jobs| {
        jobs := during;
        return NotFound;
      }
      OnlyOne(jobs, at, id);
      var status := jobs[at].status;
      var wasQueued := status == Queued;
      jobs := during;
      if wasQueued {
        var k := Find(id);
        if k < |jobs| { OnlyOne(jobs, k, id); }
        if k < |jobs| && jobs[k].status == Queued {
          jobs := jobs[k := jobs[k].(status := Canceled, finishedAt := now)];
        } else {
          if k == |jobs| { return NotFound; }
          status := jobs[k].status;
        }
      }
      if status == Queued { return Ok; }
      if status == Canceled { return if wasQueued then Ok else Conflict; }
      if status == Running {
        if id in registered {
          asked := asked + {id};
        } else {
          var k := Find(id);
          if k < |jobs| { OnlyOne(jobs, k, id); }
          if k < |jobs| && jobs[k].status == Running {
            jobs := jobs[k := jobs[k].(status := Canceled, finishedAt := now)];
          }
        }
        var last := Find(id);
        return if last == |jobs| then NotFound else Ok;
      }
      code := Conflict;
    }

    /** The download handler; present tells whether the finished file is on disk. */
    method Serve(id: string, now: int, present: bool) returns (code: Code)
      requires UniqueIds(jobs)
      modifies this`jobs
      ensures code in {Ok, NotFound, Conflict, Gone}
      ensures code in {Ok, NotFound, Conflict} ==> jobs == old(jobs)
      ensures code == NotFound <==> forall k :: 0 <= k < |old(jobs)| ==> old(jobs)[k].id != id
      ensures forall i: nat :: HasId(old(jobs), i, id) ==>
        && OnlyAt(old(jobs), jobs, i)
        && (code == Ok <==>
          old(jobs)[i].status == Done && present && (old(jobs)[i].expiresAt <= 0 || now < old(jobs)[i].expiresAt))
        && (code == Gone <==> jobs[i].status == Expired)
        && (code == Gone ==> old(jobs)[i].status in {Done, Expired} && jobs[i] == old(jobs)[i].(status := Expired))
    {
      var i := Find(id);
      if i == |jobs| { return NotFound; }
      OnlyOne(jobs, i, id);
      if jobs[i].status == Expired { return Gone; }
      if jobs[i].status != Done { return Conflict; }
      if (jobs[i].expiresAt > 0 && now >= jobs[i].expiresAt) || !present {
        jobs := jobs[i := jobs[i].(status := Expired)];
        return Gone;
      }
      code := Ok;
    }
  }

  lemma OnlyOne(jobs: seq<Job>, i: nat, id: string)
    requires UniqueIds(jobs) && HasId(jobs, i, id)
    ensures forall k: nat :: HasId(jobs, k, id) ==> k == i
  {
  }

  lemma BeforeOrder(a: Job, b: Job)
    ensures !(Before(a, b) && Before(b, a)) && !Before(a, a)
  {
    TextOrder.Irreflexive(a.id);
    TextOrder.Asymmetric(a.id, b.id);
  }

  lemma BeforeChain(a: Job, b: Job, c: Job)
    requires Before(b, c) && !Before(a, c)
    ensures !Before(a, b)
  {
    if Before(a, b) && a.createdAt == b.createdAt == c.createdAt { TextOrder.Transitive(a.id, b.id, c.id); }
  }

  lemma BeforeTotal(a: Job, b: Job)
    requires a.id != b.id
    ensures Before(a, b) || Before(b, a)
  {
    TextOrder.Total(a.id, b.id);
  }

  // ---------- how long a job and its file last ----------

  /** A finished file can be fetched for seven days, a failed or cancelled job has none, and a job that has ended is
      swept once it was made more than ninety days ago. */
  lemma Lifetimes(jobs: seq<Job>, quota: int, offset: int, i: nat, how: Status, rows: nat, now: int, later: int)
    requires Enabled(jobs, quota, offset, Finish(i, how, rows, now)) && now > 0
    ensures var j := Apply(jobs, quota, offset, Finish(i, how, rows, now))[i];
      && j.status == how && j.done == rows <= jobs[i].cap && j.finishedAt == now
      && (how == Done ==> j.expiresAt > 0 && (later < j.expiresAt <==> later - now < 7 * 24 * 3600 * 1000))
      && (how != Done ==> j.expiresAt == jobs[i].expiresAt)
    ensures Enabled(Apply(jobs, quota, offset, Finish(i, how, rows, now)), quota, offset, Sweep(i, later))
            <==> later - jobs[i].createdAt > 90 * 24 * 3600 * 1000
  {
  }

  // ---------- place in the queue ----------

  /** The jobs the worker takes before j: the queued ones older than it, and the one running. */
  function AheadOf(jobs: seq<Job>, j: nat): set<int>
    requires j < |jobs|
  {
    set k | 0 <= k < |jobs| && ((jobs[k].status == Queued && Before(jobs[k], jobs[j])) || jobs[k].status == Running)
  }

  /** The place is exact: a claim of another job leaves it, an end of a running job lowers it by one,
      and at zero the job itself is the next one claimed. */
  lemma AheadCounts(jobs: seq<Job>, j: nat, i: nat, now: int, how: Status, rows: nat)
    requires UniqueIds(jobs) && j < |jobs| && jobs[j].status == Queued && i < |jobs| && i != j
    requires how in {Done, Failed, Canceled}
    ensures Oldest(jobs, i) ==>
      |AheadOf(jobs[i := jobs[i].(status := Running, startedAt := now, done := 0)], j)| == |AheadOf(jobs, j)|
    ensures jobs[i].status == Running ==>
      |AheadOf(jobs[i := jobs[i].(status := how, finishedAt := now, done := rows)], j)| == |AheadOf(jobs, j)| - 1
    ensures AheadOf(jobs, j) == {} <==> Oldest(jobs, j) && forall k :: 0 <= k < |jobs| ==> jobs[k].status != Running
  {
    BeforeTotal(jobs[i], jobs[j]);
    if Oldest(jobs, i) {
      assert AheadOf(jobs[i := jobs[i].(status := Running, startedAt := now, done := 0)], j) == AheadOf(jobs, j);
    }
    if jobs[i].status == Running {
      var after := jobs[i := jobs[i].(status := how, finishedAt := now, done := rows)];
      assert AheadOf(jobs, j) == AheadOf(after, j) + {i} && i !in AheadOf(after, j);
    }
    EmptyAhead(jobs, j);
  }

  lemma EmptyAhead(jobs: seq<Job>, j: nat)
    requires j < |jobs| && jobs[j].status == Queued
    ensures AheadOf(jobs, j) == {} <==> Oldest(jobs, j) && forall k :: 0 <= k < |jobs| ==> jobs[k].status != Running
  {
    if AheadOf(jobs, j) == {} {
      forall k | 0 <= k < |jobs|
        ensures jobs[k].status != Running && (jobs[k].status == Queued ==> !Before(jobs[k], jobs[j]))
      {
        assert k !in AheadOf(jobs, j);
      }
    }
  }
}
