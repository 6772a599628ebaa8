/** The scheduler's methods over its mutable tables, each proved to make the step the protocol lists. */
module SchedulerServer {
  import opened FiniteSets
  import opened Scheduler
  import opened SchedulerSafety
  import opened SchedulerDrain
  import Queue

  /** The elements of ids in ascending key order. */
  ghost predicate Listing(ids: set<int>, key: map<int, int>, out: seq<int>)
    requires ids <= key.Keys
  {
    && (forall i :: 0 <= i < |out| ==> out[i] in ids)
    && (forall x :: x in ids ==> x in out)
    && (forall i, j :: 0 <= i < j < |out| ==> out[i] != out[j] && key[out[i]] <= key[out[j]])
  }

  method Least(ids: set<int>, key: map<int, int>) returns (m: int)
    requires ids != {} && ids <= key.Keys
    ensures m in ids && forall x :: x in ids ==> key[m] <= key[x]
  {
    ghost var w := Member(ids);
    m :| m in ids;
    var rest := ids - {m};
    while rest != {}
      invariant rest <= ids && m in ids
      invariant forall x :: x in ids - rest ==> key[m] <= key[x]
      decreases rest
    {
      ghost var v := Member(rest);
      var x :| x in rest;
      if key[x] < key[m] { m := x; }
      rest := rest - {x};
    }
  }

  /** ORDER BY: lists a selection in key order. */
  method InOrder(ids: set<int>, key: map<int, int>) returns (out: seq<int>)
    requires ids <= key.Keys
    ensures Listing(ids, key, out) && |out| == |ids|
  {
    out := [];
    var rest := ids;
    while rest != {}
      invariant rest <= ids
      invariant |out| + |rest| == |ids|
      invariant forall i :: 0 <= i < |out| ==> out[i] in ids - rest
      invariant forall x :: x in ids - rest ==> x in out
      invariant forall i, j :: 0 <= i < j < |out| ==> out[i] != out[j] && key[out[i]] <= key[out[j]]
      invariant forall i, x :: 0 <= i < |out| && x in rest ==> key[out[i]] <= key[x]
      decreases rest
    {
      var m := Least(rest, key);
      out := out + [m];
      rest := rest - {m};
    }
  }

  // ---------- candidates ----------

  predicate Eligible(s: State, due: set<int>, j: int) {
    j in s.jobs && j in due && Schedulable(s.jobs[j].status)
  }

  function Room(s: State, j: int): int
    requires j in s.jobs
  {
    Max1(s.jobs[j].concurrency) - |Of(s.rows, j, Running)|
  }

  function Ids(items: seq<Queue.Item>): set<int> {
    set i | 0 <= i < |items| :: items[i].id
  }

  function IdsOf(s: State, items: seq<Queue.Item>, j: int): set<int> {
    set r | r in Ids(items) && r in s.rows && s.rows[r].job == j
  }

  /** A candidate list entry: a waiting row of an eligible job, carrying its job's score. */
  predicate IsCandidate(s: State, due: set<int>, it: Queue.Item) {
    && it.id in s.rows && s.rows[it.id].status == Queued
    && Eligible(s, due, s.rows[it.id].job)
    && it.score == s.jobs[s.rows[it.id].job].score && it.urgent == s.jobs[s.rows[it.id].job].urgent
  }

  predicate Distinct(items: seq<Queue.Item>) {
    forall i, k :: 0 <= i < k < |items| ==> items[i].id != items[k].id
  }

  /** Job j offers exactly its first waiting rows by row index, as many as its window has room for. */
  predicate OffersFirst(s: State, items: seq<Queue.Item>, j: int)
    requires j in s.jobs
  {
    var mine := IdsOf(s, items, j);
    && mine <= Of(s.rows, j, Queued)
    && |mine| == Queue.Max(0, Queue.Min(Room(s, j), |Of(s.rows, j, Queued)|))
    && forall r, q :: r in mine && q in Of(s.rows, j, Queued) && q !in mine ==> s.rows[r].index <= s.rows[q].index
  }

  /** Counted out: the job's offered rows wait and none that waits with a lower index is passed over; they fill
      its window of at least one row, or are all that wait. */
  predicate OffersWindow(rows: map<int, Row>, items: seq<Queue.Item>, j: int, window: int) {
    var mine := set r | r in Ids(items) && r in rows && rows[r].job == j;
    var waiting := set r | r in rows && rows[r].job == j && rows[r].status == Queued;
    var busy := |set r | r in rows && rows[r].job == j && rows[r].status == Running|;
    && mine <= waiting
    && (forall r, q :: r in mine && q in waiting && rows[q].index < rows[r].index ==> q in mine)
    && (mine == waiting || |mine| + busy >= window)
    && (mine == waiting || |mine| + busy >= 1)
    && (mine == {} || |mine| + busy <= 1 || |mine| + busy <= window)
  }

  ghost predicate Candidates(s: State, due: set<int>, items: seq<Queue.Item>) {
    && (forall i :: 0 <= i < |items| ==> IsCandidate(s, due, items[i]))
    && Distinct(items)
    && forall j :: Eligible(s, due, j) ==> OffersFirst(s, items, j)
  }

  lemma OfferedWindow(s: State, items: seq<Queue.Item>, j: int)
    requires j in s.jobs && OffersFirst(s, items, j)
    ensures OffersWindow(s.rows, items, j, s.jobs[j].concurrency)
  {
    var mine, waiting := IdsOf(s, items, j), Of(s.rows, j, Queued);
    if |mine| == |waiting| { SameSize(mine, waiting); }
    assert mine == {} || |mine| > 0;
    hide Ids;
  }

  lemma CandidatesMean(s: State, due: set<int>, items: seq<Queue.Item>)
    requires Candidates(s, due, items)
    ensures forall i :: 0 <= i < |items| ==> (
      var it := items[i]; var j := if it.id in s.rows then s.rows[it.id].job else -1;
      && it.id in s.rows && s.rows[it.id].status == Queued
      && j in s.jobs && j in due && s.jobs[j].status in {JQueued, JRunning}
      && it.score == s.jobs[j].score && it.urgent == s.jobs[j].urgent)
    ensures forall j :: j in s.jobs && j in due && s.jobs[j].status in {JQueued, JRunning} ==>
      OffersWindow(s.rows, items, j, s.jobs[j].concurrency)
  {
    forall j | j in s.jobs && j in due && s.jobs[j].status in {JQueued, JRunning}
      ensures OffersWindow(s.rows, items, j, s.jobs[j].concurrency)
    {
      assert Eligible(s, due, j);
      OfferedWindow(s, items, j);
    }
    forall i | 0 <= i < |items| ensures IsCandidate(s, due, items[i]) {}
  }

  lemma IdsConcat(a: seq<Queue.Item>, b: seq<Queue.Item>)
    ensures Ids(a + b) == Ids(a) + Ids(b)
  {
    forall x | x in Ids(a) + Ids(b) ensures x in Ids(a + b) {
      if x in Ids(a) {
        var i :| 0 <= i < |a| && a[i].id == x;
        assert (a + b)[i].id == x;
      } else {
        var i :| 0 <= i < |b| && b[i].id == x;
        assert (a + b)[|a| + i].id == x;
      }
    }
  }

  lemma {:induction false} IdsSize(items: seq<Queue.Item>)
    requires Distinct(items)
    ensures |Ids(items)| == |items|
  {
    if items == [] {
      assert Ids(items) == {};
    } else {
      var n := |items| - 1;
      assert items == items[..n] + [items[n]];
      IdsSize(items[..n]);
      IdsConcat(items[..n], [items[n]]);
      assert Ids([items[n]]) == {items[n].id} by { assert [items[n]][0].id == items[n].id; }
      UnionSize(Ids(items[..n]), {items[n].id});
    }
  }

  function Entries(s: State, j: int, ids: seq<int>): seq<Queue.Item>
    requires j in s.jobs
  {
    seq(|ids|, i requires 0 <= i < |ids| => Queue.Item(ids[i], s.jobs[j].score, s.jobs[j].urgent))
  }

  function Elements(ids: seq<int>): set<int> {
    set i | 0 <= i < |ids| :: ids[i]
  }

  lemma EntriesIds(s: State, j: int, ids: seq<int>)
    requires j in s.jobs
    ensures Ids(Entries(s, j, ids)) == Elements(ids)
  {
    var e := Entries(s, j, ids);
    forall x | x in Elements(ids) ensures x in Ids(e) {
      var i :| 0 <= i < |ids| && ids[i] == x;
      assert e[i].id == x;
    }
  }

  /** The first w ids of a listing are the w lowest ones. */
  lemma FirstOnes(all: set<int>, key: map<int, int>, ids: seq<int>, w: nat)
    requires all <= key.Keys && Listing(all, key, ids) && w <= |ids|
    ensures Elements(ids[..w]) <= all && |Elements(ids[..w])| == w
    ensures forall r, q :: r in Elements(ids[..w]) && q in all && q !in Elements(ids[..w]) ==> key[r] <= key[q]
  {
    ElementsSize(ids[..w]);
    assert forall m :: 0 <= m < w ==> ids[..w][m] == ids[m] && ids[m] in Elements(ids[..w]);
    forall r, q | r in Elements(ids[..w]) && q in all && q !in Elements(ids[..w]) ensures key[r] <= key[q] {
      var i :| 0 <= i < w && ids[..w][i] == r;
      var k :| 0 <= k < |ids| && ids[k] == q;
      assert ids[i] == r;
    }
  }

  lemma {:induction false} ElementsSize(ids: seq<int>)
    requires forall i, k :: 0 <= i < k < |ids| ==> ids[i] != ids[k]
    ensures |Elements(ids)| == |ids|
  {
    if ids == [] {
      assert Elements(ids) == {};
    } else {
      var n := |ids| - 1;
      ElementsSize(ids[..n]);
      forall x ensures x in Elements(ids) <==> x in Elements(ids[..n]) + {ids[n]} {
        if x in Elements(ids[..n]) {
          var i :| 0 <= i < n && ids[..n][i] == x;
          assert ids[i] == x;
        }
        if x in Elements(ids) {
          var i :| 0 <= i < |ids| && ids[i] == x;
          assert i < n ==> ids[..n][i] == x;
        }
      }
      assert Elements(ids) == Elements(ids[..n]) + {ids[n]};
      UnionSize(Elements(ids[..n]), {ids[n]});
    }
  }

  lemma ElementsNext(ids: seq<int>, i: nat)
    requires i < |ids|
    ensures Elements(ids[..i + 1]) == Elements(ids[..i]) + {ids[i]}
  {
    assert ids[..i + 1] == ids[..i] + [ids[i]];
    forall x | x in Elements(ids[..i]) ensures x in Elements(ids[..i + 1]) {
      var k :| 0 <= k < i && ids[..i][k] == x;
      assert ids[..i + 1][k] == x;
    }
    assert ids[..i + 1][i] == ids[i];
  }

  lemma ElementsAre(ids: seq<int>)
    ensures forall x :: x in Elements(ids) <==> x in ids
  {
  }

  lemma NotYet(ids: seq<int>, i: nat)
    requires i < |ids| && forall a, b :: 0 <= a < b < |ids| ==> ids[a] < ids[b]
    ensures ids[i] !in Elements(ids[..i])
  {
  }

  /** The candidate list after the jobs in done have been looked at. */
  ghost predicate CandidatesOf(s: State, due: set<int>, done: set<int>, items: seq<Queue.Item>) {
    && (forall i :: 0 <= i < |items| ==> IsCandidate(s, due, items[i]) && s.rows[items[i].id].job in done)
    && Distinct(items)
    && forall j :: j in done && Eligible(s, due, j) ==> OffersFirst(s, items, j)
  }

  lemma DistinctAppend(a: seq<Queue.Item>, b: seq<Queue.Item>)
    requires Distinct(a) && Distinct(b) && forall x :: x in Ids(a) ==> x !in Ids(b)
    ensures Distinct(a + b)
  {
    var out := a + b;
    forall i, k | 0 <= i < k < |out| ensures out[i].id != out[k].id {
      assert i < |a| ==> out[i].id in Ids(a);
      assert k >= |a| ==> out[k].id == b[k - |a|].id && out[k].id in Ids(b);
      assert i >= |a| ==> out[i] == b[i - |a|] && out[k] == b[k - |a|];
    }
  }

  lemma EntriesAreCandidates(s: State, due: set<int>, j: int, ids: seq<int>, w: nat)
    requires Eligible(s, due, j) && w <= |ids|
    requires forall i :: 0 <= i < |ids| ==> ids[i] in Of(s.rows, j, Queued)
    requires forall i, k :: 0 <= i < k < |ids| ==> ids[i] != ids[k]
    ensures var e := Entries(s, j, ids[..w]); Distinct(e)
    ensures forall i :: 0 <= i < |Entries(s, j, ids[..w])| ==> IsCandidate(s, due, Entries(s, j, ids[..w])[i])
    ensures forall x :: x in Ids(Entries(s, j, ids[..w])) ==> x in s.rows && s.rows[x].job == j
  {
    var e := Entries(s, j, ids[..w]);
    forall i | 0 <= i < |e| ensures e[i].id == ids[i] && IsCandidate(s, due, e[i]) {
    }
  }

  lemma AddEntries(s: State, due: set<int>, done: set<int>, items: seq<Queue.Item>, j: int, ids: seq<int>, w: nat)
    requires CandidatesOf(s, due, done, items) && j !in done && Eligible(s, due, j)
    requires Listing(Of(s.rows, j, Queued), map r | r in s.rows :: s.rows[r].index, ids)
    requires |ids| == |Of(s.rows, j, Queued)|
    requires w == Queue.Max(0, Queue.Min(Room(s, j), |ids|))
    ensures CandidatesOf(s, due, done + {j}, items + Entries(s, j, ids[..w]))
  {
    var e := Entries(s, j, ids[..w]);
    var out := items + e;
    FirstOnes(Of(s.rows, j, Queued), map r | r in s.rows :: s.rows[r].index, ids, w);
    EntriesIds(s, j, ids[..w]);
    EntriesAreCandidates(s, due, j, ids, w);
    forall x | x in Ids(items) ensures x !in Ids(e) {
      assert x in s.rows && s.rows[x].job in done;
    }
    DistinctAppend(items, e);
    hide Listing;
    hide Entries;
    hide Of;
    hide Eligible;
    JobOffers(s, items, e, j, Elements(ids[..w]));
    forall k | k in done && Eligible(s, due, k) ensures OffersFirst(s, out, k) {
      SameOffers(s, items, e, j, k);
    }
    forall i | 0 <= i < |out| ensures IsCandidate(s, due, out[i]) && s.rows[out[i].id].job in done + {j} {
      assert out[i] == if i < |items| then items[i] else e[i - |items|];
      assert i >= |items| ==> out[i].id in Ids(e);
    }
  }

  lemma JobOffers(s: State, items: seq<Queue.Item>, e: seq<Queue.Item>, j: int, picked: set<int>)
    requires j in s.jobs && Ids(e) == picked && picked <= Of(s.rows, j, Queued)
    requires forall i :: 0 <= i < |items| ==> items[i].id in s.rows && s.rows[items[i].id].job != j
    requires |picked| == Queue.Max(0, Queue.Min(Room(s, j), |Of(s.rows, j, Queued)|))
    requires forall r, q :: r in picked && q in Of(s.rows, j, Queued) && q !in picked ==>
      s.rows[r].index <= s.rows[q].index
    ensures OffersFirst(s, items + e, j)
  {
    IdsConcat(items, e);
    assert IdsOf(s, items + e, j) == picked;
  }

  lemma SameOffers(s: State, items: seq<Queue.Item>, e: seq<Queue.Item>, j: int, k: int)
    requires k in s.jobs && k != j && OffersFirst(s, items, k)
    requires forall x :: x in Ids(e) ==> x in s.rows && s.rows[x].job == j
    ensures OffersFirst(s, items + e, k)
  {
    IdsConcat(items, e);
    assert IdsOf(s, items + e, k) == IdsOf(s, items, k);
  }

  /** A job whose window is full or that has nothing waiting offers nothing. */
  lemma SkipJob(s: State, due: set<int>, done: set<int>, items: seq<Queue.Item>, j: int)
    requires CandidatesOf(s, due, done, items) && j !in done
    requires Eligible(s, due, j) ==> Room(s, j) <= 0 || Of(s.rows, j, Queued) == {}
    ensures CandidatesOf(s, due, done + {j}, items)
  {
    assert forall x :: x in Ids(items) ==> x in s.rows && s.rows[x].job in done;
    assert IdsOf(s, items, j) == {};
  }

  // ---------- admission ----------

  lemma RepeatsCount(items: seq<Queue.Item>, i: nat, k: nat)
    requires i < k < |items| && items[i] == items[k]
    ensures multiset(items)[items[i]] >= 2
  {
    assert items == items[..i] + [items[i]] + items[i + 1..k] + [items[k]] + items[k + 1..];
  }

  lemma {:induction false} DistinctCount(items: seq<Queue.Item>, x: Queue.Item)
    requires Distinct(items)
    ensures multiset(items)[x] <= 1
  {
    if items != [] {
      var n := |items| - 1;
      assert items == items[..n] + [items[n]];
      DistinctCount(items[..n], x);
      if x == items[n] {
        assert x !in items[..n];
      }
    }
  }

  /** What the queue picks from distinct items is distinct and among them. */
  lemma PickIsDistinct(items: seq<Queue.Item>, out: seq<Queue.Item>)
    requires Distinct(items) && multiset(out) <= multiset(items)
    ensures Distinct(out) && forall i :: 0 <= i < |out| ==> out[i] in items
  {
    forall i | 0 <= i < |out| ensures out[i] in items {
      assert out[i] in multiset(out);
    }
    forall i, k | 0 <= i < k < |out| ensures out[i].id != out[k].id {
      var a :| 0 <= a < |items| && items[a] == out[i];
      var b :| 0 <= b < |items| && items[b] == out[k];
      if a == b { RepeatsCount(out, i, k); }
      DistinctCount(items, out[i]);
    }
  }

  lemma ChosenFitWindows(s: State, due: set<int>, cands: seq<Queue.Item>, out: seq<Queue.Item>, j: int)
    requires Candidates(s, due, cands) && forall i :: 0 <= i < |out| ==> out[i] in cands
    requires j in s.jobs && Ids(out) * Of(s.rows, j, Queued) != {}
    ensures |Of(s.rows, j, Running)| + |Ids(out) * Of(s.rows, j, Queued)| <= Max1(s.jobs[j].concurrency)
  {
    var mine := Ids(out) * Of(s.rows, j, Queued);
    forall r | r in mine ensures r in IdsOf(s, cands, j) && Eligible(s, due, j) {
      var i :| 0 <= i < |out| && out[i].id == r;
      var k :| 0 <= k < |cands| && cands[k] == out[i];
      assert IsCandidate(s, due, cands[k]);
    }
    var r := Member(mine);
    SubsetSize(mine, IdsOf(s, cands, j));
    assert OffersFirst(s, cands, j);
    assert |mine| > 0;
  }

  lemma ChosenAreWaiting(s: State, due: set<int>, cands: seq<Queue.Item>, out: seq<Queue.Item>)
    requires Candidates(s, due, cands) && forall i :: 0 <= i < |out| ==> out[i] in cands
    ensures Ids(out) <= Having(s.rows, Queued)
    ensures forall r :: r in Ids(out) ==> Eligible(s, due, s.rows[r].job)
  {
    forall r | r in Ids(out)
      ensures r in Having(s.rows, Queued) && Eligible(s, due, s.rows[r].job)
    {
      var i :| 0 <= i < |out| && out[i].id == r;
      var k :| 0 <= k < |cands| && cands[k] == out[i];
      assert IsCandidate(s, due, cands[k]);
    }
  }

  lemma CandidatesExist(s: State, due: set<int>, cands: seq<Queue.Item>, j: int)
    requires Candidates(s, due, cands)
    requires Eligible(s, due, j) && Of(s.rows, j, Queued) != {} && Room(s, j) > 0
    ensures |cands| > 0
  {
    assert OffersFirst(s, cands, j);
    var q := Member(Of(s.rows, j, Queued));
    assert |Of(s.rows, j, Queued)| > 0;
    var r := Member(IdsOf(s, cands, j));
    assert r in Ids(cands);
  }

  lemma ChosenFitJobs(s: State, due: set<int>, cands: seq<Queue.Item>, out: seq<Queue.Item>, budget: int)
    requires Candidates(s, due, cands) && forall i :: 0 <= i < |out| ==> out[i] in cands
    requires Ids(out) != {} ==> |Having(s.rows, Running)| + |Ids(out)| <= budget
    ensures MayAdmit(s, Ids(out), budget, due)
  {
    ChosenAreWaiting(s, due, cands, out);
    var a := Ids(out);
    hide Ids;
    hide Of;
    hide Candidates;
    forall j | j in s.jobs && a * Of(s.rows, j, Queued) != {}
      ensures |Of(s.rows, j, Running)| + |a * Of(s.rows, j, Queued)| <= Max1(s.jobs[j].concurrency)
    {
      ChosenFitWindows(s, due, cands, out, j);
    }
  }

  lemma ChosenKeepBusy(s: State, due: set<int>, cands: seq<Queue.Item>, a: set<int>, budget: int)
    requires Candidates(s, due, cands)
    requires |Having(s.rows, Running)| < budget && |cands| > 0 ==> a != {}
    ensures KeepsBusy(s, a, budget, due)
  {
    hide Of;
    hide Candidates;
    forall j | Eligible(s, due, j) && Of(s.rows, j, Queued) != {} && Room(s, j) > 0
      ensures |cands| > 0
    {
      CandidatesExist(s, due, cands, j);
    }
  }

  lemma ChosenFit(s: State, due: set<int>, cands: seq<Queue.Item>, out: seq<Queue.Item>, plan: Queue.Plan)
    requires Candidates(s, due, cands)
    requires Queue.FairAdmission(cands, |Having(s.rows, Running)|, plan, out)
    ensures Distinct(out) && Ids(out) <= Having(s.rows, Queued)
    ensures MayAdmit(s, Ids(out), plan.budget, due) && KeepsBusy(s, Ids(out), plan.budget, due)
  {
    assert multiset(out) <= multiset(cands) && |out| == Queue.Min(Queue.Free(|Having(s.rows, Running)|, plan), |cands|);
    assert Distinct(cands);
    hide Queue.FairAdmission;
    hide Candidates;
    hide Distinct;
    hide MayAdmit;
    hide KeepsBusy;
    hide Ids;
    hide Having;
    PickIsDistinct(cands, out);
    IdsSize(out);
    assert Ids(out) == {} ==> |Ids(out)| == 0;
    ChosenAreWaiting(s, due, cands, out);
    ChosenFitJobs(s, due, cands, out, plan.budget);
    ChosenKeepBusy(s, due, cands, Ids(out), plan.budget);
  }

  lemma NothingToAdmit(s: State, due: set<int>, budget: int)
    requires Candidates(s, due, [])
    ensures KeepsBusy(s, {}, budget, due)
  {
    forall j | Eligible(s, due, j) && Of(s.rows, j, Queued) != {} && Room(s, j) > 0
      ensures false
    {
      CandidatesExist(s, due, [], j);
    }
  }

  /** Every admitted row waits in a due job that waits or runs, and with those running they fit the budget. */
  predicate AdmittedWithin(rows: map<int, Row>, jobs: map<int, Job>, a: set<int>, budget: int, due: set<int>) {
    && (forall r :: r in a ==>
          && r in rows && rows[r].status == Queued && rows[r].job in due
          && rows[r].job in jobs && jobs[rows[r].job].status in {JQueued, JRunning})
    && (a != {} ==> |set r | r in rows && rows[r].status == Running| + |a| <= budget)
  }

  lemma MayMeans(s: State, a: set<int>, budget: int, due: set<int>)
    requires MayAdmit(s, a, budget, due)
    ensures AdmittedWithin(s.rows, s.jobs, a, budget, due)
  {
    forall r | r in a ensures r in Having(s.rows, Queued) {}
  }

  lemma NobodyChosen(s: State, due: set<int>, budget: int, reserved: int)
    requires Candidates(s, due, [])
    ensures Queue.FairAdmission([], |Having(s.rows, Running)|, Queue.Plan(budget, reserved), []) && Ids([]) == {}
  {
    Queue.NothingAdmitted([], |Having(s.rows, Running)|, Queue.Plan(budget, reserved));
    assert Ids([]) == {};
  }

  lemma FreshId(out: seq<Queue.Item>, i: nat)
    requires Distinct(out) && i < |out|
    ensures out[i].id !in Ids(out[..i]) && Ids(out[..i]) <= Ids(out)
  {
    forall x | x in Ids(out[..i]) ensures x in Ids(out) {
      var k :| 0 <= k < i && out[..i][k].id == x;
      assert out[k].id == x;
    }
  }

  /** A waiting job whose row is admitted counts as running from then on. */
  function Promoted(jobs: map<int, Job>, j: int): map<int, Job> {
    if j in jobs && jobs[j].status == JQueued then jobs[j := jobs[j].(status := JRunning)] else jobs
  }

  /** Admitting one more row on top of a. */
  lemma AdmitOneMore(s: State, a: set<int>, r: int)
    requires a <= Having(s.rows, Queued) && r in Having(s.rows, Queued) && r !in a
    ensures var m := Admitted(s, a); var j := s.rows[r].job;
      r in m.rows && m.rows[r] == s.rows[r]
      && Admitted(s, a + {r}) ==
         m.(rows := m.rows[r := Dispatched(m.rows[r])],
            jobs := Promoted(m.jobs, j),
            live := m.live + {r})
  {
    var m := Admitted(s, a);
    var j := s.rows[r].job;
    var n := Admitted(s, a + {r});
    assert n.rows == m.rows[r := Dispatched(m.rows[r])];
    assert n.live == m.live + {r};
    var after := Promoted(m.jobs, j);
    forall k | k in s.jobs ensures n.jobs[k] == after[k] {
      assert r in a + {r};
    }
    assert n.jobs == after;
  }

  lemma AdmitNext(s: State, out: seq<Queue.Item>, i: nat)
    requires i < |out| && Distinct(out) && Ids(out) <= Having(s.rows, Queued)
    ensures var a, r := Ids(out[..i]), out[i].id; var m := Admitted(s, a);
      && a <= Having(s.rows, Queued) && Ids(out[..i + 1]) <= Having(s.rows, Queued)
      && r in m.rows && m.rows[r].status == Queued && m.rows[r].job == s.rows[r].job
      && Admitted(s, Ids(out[..i + 1])) ==
         m.(rows := m.rows[r := Dispatched(m.rows[r])],
            jobs := Promoted(m.jobs, m.rows[r].job),
            live := m.live + {r})
  {
    var it := out[i];
    assert out[..i + 1] == out[..i] + [it];
    IdsConcat(out[..i], [it]);
    assert Ids([it]) == {it.id} by { assert [it][0].id == it.id; }
    assert it.id in Ids(out);
    FreshId(out, i);
    AdmitOneMore(s, Ids(out[..i]), it.id);
  }

  // ---------- the sweep ----------

  /** The sweep restricted to some jobs. */
  function SweepOver(s: State, only: set<int>): State {
    s.(jobs := map j | j in s.jobs ::
         if j in only && Swept(s.jobs[j].status) && Closable(s, j) then Closed(s, j) else s.jobs[j])
  }

  lemma SweepStart(s: State)
    ensures SweepOver(s, {}) == s
  {
    assert SweepOver(s, {}).jobs == s.jobs;
  }

  lemma SameRowsClose(s: State, t: State, j: int)
    requires t.rows == s.rows && j in s.jobs && j in t.jobs && t.jobs[j] == s.jobs[j]
    ensures Closable(t, j) == Closable(s, j) && Closed(t, j) == Closed(s, j)
  {
  }

  lemma SweepOverAt(s: State, only: set<int>)
    ensures SweepOver(s, only) == s.(jobs := SweepOver(s, only).jobs)
    ensures SweepOver(s, only).jobs.Keys == s.jobs.Keys
    ensures forall k :: k in s.jobs ==>
              SweepOver(s, only).jobs[k]
                == (if k in only && Swept(s.jobs[k].status) && Closable(s, k) then Closed(s, k) else s.jobs[k])
  {
  }

  lemma SweepOneMore(s: State, only: set<int>, j: int)
    requires j in s.jobs && Swept(s.jobs[j].status) && j !in only
    ensures Finalize(SweepOver(s, only), j) == SweepOver(s, only + {j})
    ensures Closable(SweepOver(s, only), j) == Closable(s, j)
  {
    var t, u := SweepOver(s, only), SweepOver(s, only + {j});
    SweepOverAt(s, only);
    SweepOverAt(s, only + {j});
    SameRowsClose(s, t, j);
    hide SweepOver;
    hide Closable;
    hide Closed;
    forall k | k in s.jobs && k != j ensures t.jobs[k] == u.jobs[k] {
      assert k in only <==> k in only + {j};
    }
    assert u.jobs[j] == if Closable(s, j) then Closed(s, j) else s.jobs[j];
    assert t.jobs[j] == s.jobs[j];
    SameMap(if Closable(s, j) then t.jobs[j := Closed(s, j)] else t.jobs, u.jobs);
  }

  lemma SweepSkip(s: State, only: set<int>, j: int)
    requires j in s.jobs && !Closable(s, j)
    ensures SweepOver(s, only + {j}) == SweepOver(s, only)
  {
    assert SweepOver(s, only + {j}).jobs == SweepOver(s, only).jobs;
  }

  lemma SweepEnd(s: State, only: set<int>)
    requires forall j :: j in s.jobs && Swept(s.jobs[j].status) ==> j in only
    ensures SweepOver(s, only) == Sweep(s)
  {
    assert SweepOver(s, only).jobs == Sweep(s).jobs;
  }

  /** Giving up the stuck rows and resetting those never started is the recovery of every row. */
  lemma RecoverWhole(s: State, stuck: seq<int>, marked: map<int, Row>, rows: map<int, Row>, polled: set<int>)
    requires forall r :: r in stuck <==>
      r in s.rows && s.rows[r].status == Running && !Pollable(s.rows[r]) && Evidence(s.rows[r])
    requires marked == map r | r in s.rows :: if r in stuck then Finished(s.rows[r], Lost, "") else s.rows[r]
    requires rows == map r | r in marked ::
      if marked[r].status == Running && marked[r].ids == Handles("", "", "") && !marked[r].stamped
      then marked[r].(status := Queued, resets := marked[r].resets + 1) else marked[r]
    requires polled == Having(RecoverState(s).rows, Running)
    ensures RecoverState(s) == State(s.jobs, rows, {}, polled, true)
  {
    forall r | r in s.rows ensures rows[r] == Recovered(s.rows[r]) {}
    SameMap(rows, map r | r in s.rows :: Recovered(s.rows[r]));
    RecoverySplits(s);
  }

  predicate NoRepeats(s: seq<int>) { forall i, k :: 0 <= i < k < |s| ==> s[i] != s[k] }

  /** The jobs closed in the two halves of a sweep are those the sweep closes, each once. */
  lemma TickReports(s: State, js: seq<int>, cs: seq<int>, done1: seq<int>, done2: seq<int>)
    requires forall j :: j in js <==> j in s.jobs && Schedulable(s.jobs[j].status)
    requires forall j :: j in cs <==> j in s.jobs && s.jobs[j].status == JCancelling
    requires forall j :: j in done1 <==> j in js && Closable(s, j)
    requires forall j :: j in done2 <==> j in cs && Closable(s, j)
    requires NoRepeats(done1) && NoRepeats(done2)
    ensures forall j :: j in done1 + done2 <==> j in SweptJobs(s)
    ensures NoRepeats(done1 + done2)
  {
    hide Closable;
    forall i, k | 0 <= i < k < |done1 + done2| ensures (done1 + done2)[i] != (done1 + done2)[k] {
      if i < |done1| <= k { assert done1[i] in done1 && done2[k - |done1|] in done2; }
    }
  }

  lemma SweptCancels(s: State, only: set<int>)
    requires forall j :: j in only ==> j in s.jobs && Schedulable(s.jobs[j].status)
    ensures var t := SweepOver(s, only);
      forall j :: j in t.jobs && t.jobs[j].status == JCancelling <==> j in s.jobs && s.jobs[j].status == JCancelling
  {
  }

  class Server {
    var jobs: map<int, Job>
    var rows: map<int, Row>
    var live: set<int>
    var polled: set<int>
    var up: bool

    function Abs(): State
      reads this
    {
      State(jobs, rows, live, polled, up)
    }

    constructor ()
      ensures Abs() == INIT
    {
      jobs, rows, live, polled, up := map[], map[], {}, {}, true;
    }

    method QueuedItems(j: int) returns (ids: seq<int>)
      ensures Listing(Of(rows, j, Queued), map r | r in rows :: rows[r].index, ids)
      ensures |ids| == |Of(rows, j, Queued)|
    {
      ids := InOrder(Of(rows, j, Queued), map r | r in rows :: rows[r].index);
    }

    method SchedulableJobs() returns (ids: seq<int>)
      ensures forall j :: j in ids <==> j in jobs && jobs[j].status in {JQueued, JRunning}
      ensures forall i, k :: 0 <= i < k < |ids| ==> ids[i] < ids[k]
    {
      var pick := set j | j in jobs && Schedulable(jobs[j].status);
      ids := InOrder(pick, map j | j in jobs :: j);
    }

    method CancellingJobIDs() returns (ids: seq<int>)
      ensures forall j :: j in ids <==> j in jobs && jobs[j].status == JCancelling
      ensures forall i, k :: 0 <= i < k < |ids| ==> ids[i] < ids[k]
    {
      var pick := set j | j in jobs && jobs[j].status == JCancelling;
      ids := InOrder(pick, map j | j in jobs :: j);
    }

    method MarkItemRunning(r: int) returns (won: bool)
      modifies this`rows
      ensures won == (r in old(rows) && old(rows)[r].status == Queued)
      ensures rows == if won then old(rows)[r := old(rows)[r].(status := Running, paid := false,
                                                               dispatches := old(rows)[r].dispatches + 1)]
                      else old(rows)
    {
      won := r in rows && rows[r].status == Queued;
      if won { rows := rows[r := Dispatched(rows[r])]; }
    }

    method MarkJobRunning(j: int) returns (won: bool)
      modifies this`jobs
      ensures won == (j in old(jobs) && old(jobs)[j].status == JQueued)
      ensures jobs == if won then old(jobs)[j := old(jobs)[j].(status := JRunning)] else old(jobs)
    {
      won := j in jobs && jobs[j].status == JQueued;
      if won { jobs := jobs[j := jobs[j].(status := JRunning)]; }
    }

    method ItemCandidates(due: set<int>) returns (cands: seq<Queue.Item>)
      ensures Candidates(Abs(), due, cands)
      ensures forall i :: 0 <= i < |cands| ==> (
        var it := cands[i]; var j := if it.id in rows then rows[it.id].job else -1;
        && it.id in rows && rows[it.id].status == Queued
        && j in jobs && j in due && jobs[j].status in {JQueued, JRunning}
        && it.score == jobs[j].score && it.urgent == jobs[j].urgent)
      ensures forall j :: j in jobs && j in due && jobs[j].status in {JQueued, JRunning} ==>
        OffersWindow(rows, cands, j, jobs[j].concurrency)
    {
      cands := [];
      var js := SchedulableJobs();
      ghost var done := {};
      for i := 0 to |js|
        invariant done == Elements(js[..i])
        invariant CandidatesOf(Abs(), due, done, cands)
      {
        var j := js[i];
        assert Elements(js[..i + 1]) == Elements(js[..i]) + {j} by { ElementsNext(js, i); }
        assert j !in done by { NotYet(js, i); }
        var window := jobs[j].concurrency;
        if window < 1 { window := 1; }
        window := window - |Of(rows, j, Running)|;
        if j in due && window > 0 {
          var items := QueuedItems(j);
          var w := if window < |items| then window else |items|;
          AddEntries(Abs(), due, done, cands, j, items, w);
          cands := cands + Entries(Abs(), j, items[..w]);
        } else {
          SkipJob(Abs(), due, done, cands, j);
        }
        done := done + {j};
      }
      assert js[..|js|] == js;
      forall j | Eligible(Abs(), due, j) ensures j in done {
        assert j in js;
      }
      CandidatesMean(Abs(), due, cands);
    }

    /** A dispatch goroutine takes over the row. */
    method StartItem(r: int)
      modifies this`live
      ensures live == old(live) + {r}
    {
      live := live + {r};
    }

    method Dispatch(it: Queue.Item)
      requires it.id in rows && rows[it.id].status == Queued
      modifies this
      ensures var m := old(Abs()); var j := m.rows[it.id].job;
        Abs() == m.(rows := m.rows[it.id := Dispatched(m.rows[it.id])],
                    jobs := Promoted(m.jobs, j),
                    live := m.live + {it.id})
    {
      var won := MarkItemRunning(it.id);
      if won {
        var first := MarkJobRunning(rows[it.id].job);
        StartItem(it.id);
      }
    }

    method DispatchAll(out: seq<Queue.Item>)
      requires Distinct(out) && Ids(out) <= Having(rows, Queued)
      modifies this
      ensures Abs() == Admitted(old(Abs()), Ids(out))
    {
      ghost var s := Abs();
      AdmitNobody(s);
      for i := 0 to |out|
        invariant Ids(out[..i]) <= Having(s.rows, Queued)
        invariant Abs() == Admitted(s, Ids(out[..i]))
      {
        AdmitNext(s, out, i);
        Dispatch(out[i]);
      }
      assert out[..|out|] == out;
    }

    method AdmitLocked(budget: int, reserved: int, due: set<int>) returns (admitted: set<int>)
      modifies this
      ensures AdmittedWithin(old(rows), old(jobs), admitted, budget, due)
      ensures |set r | r in old(rows) && old(rows)[r].status == Running| < budget ==>
        exists cands, out ::
          && Candidates(old(Abs()), due, cands)
          && Queue.FairAdmission(cands, |Having(old(rows), Running)|, Queue.Plan(budget, reserved), out)
          && admitted == Ids(out)
      ensures admitted <= Having(old(rows), Queued) && Abs() == Admitted(old(Abs()), admitted)
      ensures MayAdmit(old(Abs()), admitted, budget, due) && KeepsBusy(old(Abs()), admitted, budget, due)
    {
      admitted := {};
      var running := |Having(rows, Running)|;
      AdmitNobody(Abs());
      if budget - running <= 0 { return; }
      var cands := ItemCandidates(due);
      if |cands| == 0 {
        NothingToAdmit(Abs(), due, budget);
        NobodyChosen(Abs(), due, budget, reserved);
        return;
      }
      var plan := Queue.Plan(budget, reserved);
      var out := Queue.Admit(cands, running, plan);
      ChosenFit(Abs(), due, cands, out, plan);
      hide *;
      MayMeans(Abs(), Ids(out), budget, due);
      admitted := Ids(out);
      DispatchAll(out);
    }

    method FinalizeLocked(j: int) returns (done: bool)
      modifies this`jobs
      ensures Abs() == Finalize(old(Abs()), j)
      ensures done == Closable(old(Abs()), j)
      ensures done <==>
        && j in old(jobs) && old(jobs)[j].status in {JQueued, JRunning, JCancelling, JExpired}
        && (forall r :: r in rows && rows[r].job == j ==> rows[r].status != Running)
        && (|| old(jobs)[j].status == JCancelling
            || forall r :: r in rows && rows[r].job == j ==> rows[r].status != Queued)
      ensures jobs == if !done then old(jobs) else old(jobs)[j := old(jobs)[j].(
        status := if old(jobs)[j].status == JCancelling then JCancelled else JFinished,
        totals := Totals(|set r | r in rows && rows[r].job == j|,
                         |set r | r in rows && rows[r].job == j && rows[r].status == Succeeded|,
                         |set r | r in rows && rows[r].job == j && rows[r].status == Partial|,
                         |set r | r in rows && rows[r].job == j && rows[r].status == Failed|),
        reports := old(jobs)[j].reports + 1)]
    {
      if j !in jobs || jobs[j].status == JFinished || jobs[j].status == JCancelled {
        return false;
      }
      var queued, running := |Of(rows, j, Queued)|, |Of(rows, j, Running)|;
      var cancelling := jobs[j].status == JCancelling;
      if running > 0 || (queued > 0 && !cancelling) {
        ghost var r := Member(if running > 0 then Of(rows, j, Running) else Of(rows, j, Queued));
        assert rows[r].job == j;
        return false;
      }
      jobs := jobs[j := jobs[j].(status := if cancelling then JCancelled else JFinished,
                                 totals := CountTotals(rows, j), reports := jobs[j].reports + 1)];
      done := true;
      assert forall r :: r in rows && rows[r].job == j && rows[r].status == Running ==> r in Of(rows, j, Running);
      assert forall r :: r in rows && rows[r].job == j && rows[r].status == Queued ==> r in Of(rows, j, Queued);
    }

    method FinalizeAll(ids: seq<int>, ghost s: State, ghost before: set<int>, idleOnly: bool) returns (done: seq<int>)
      requires Abs() == SweepOver(s, before)
      requires forall j :: j in ids ==> j in s.jobs && Swept(s.jobs[j].status) && j !in before
      requires forall i, k :: 0 <= i < k < |ids| ==> ids[i] != ids[k]
      requires idleOnly ==> forall j :: j in ids ==> Schedulable(s.jobs[j].status)
      modifies this`jobs
      ensures Abs() == SweepOver(s, before + Elements(ids))
      ensures forall j :: j in done <==> j in ids && Closable(s, j)
      ensures NoRepeats(done)
    {
      done := [];
      assert before + Elements(ids[..0]) == before;
      for i := 0 to |ids|
        invariant Abs() == SweepOver(s, before + Elements(ids[..i]))
        invariant forall j :: j in done <==> j in ids[..i] && Closable(s, j)
        invariant NoRepeats(done)
      {
        var j := ids[i];
        ElementsNext(ids, i);
        assert ids[..i + 1] == ids[..i] + [j];
        assert before + Elements(ids[..i + 1]) == (before + Elements(ids[..i])) + {j};
        assert j !in before + Elements(ids[..i]);
        var liveItems := |Of(rows, j, Queued)| + |Of(rows, j, Running)|;
        if idleOnly && liveItems != 0 {
          SweepSkip(s, before + Elements(ids[..i]), j);
        } else {
          SweepOneMore(s, before + Elements(ids[..i]), j);
          var fin := FinalizeLocked(j);
          if fin { done := done + [j]; }
        }
      }
      assert ids[..|ids|] == ids;
    }

    /** One scheduler tick: admit, then close whatever has nothing left to run. */
    method ScheduleTick(budget: int, reserved: int, due: set<int>) returns (admitted: set<int>, done: seq<int>)
      requires up
      modifies this
      ensures Enabled(old(Abs()), Tick(admitted, budget, due))
      ensures Abs() == Apply(old(Abs()), Tick(admitted, budget, due))
      ensures forall j :: j in done <==> j in SweptJobs(Admitted(old(Abs()), admitted))
      ensures NoRepeats(done)
    {
      hide AdmittedWithin, Candidates, Queue.FairAdmission, Closable, Closed, MayAdmit, KeepsBusy, Having, Admitted,
           Sweep, SweepOver;
      admitted := AdmitLocked(budget, reserved, due);
      ghost var s := Abs();
      SweepStart(s);
      var js := SchedulableJobs();
      assert forall j :: j in js ==> j in s.jobs && Schedulable(s.jobs[j].status);
      var done1 := FinalizeAll(js, s, {}, true);
      assert {} + Elements(js) == Elements(js);
      ElementsAre(js);
      SweptCancels(s, Elements(js));
      var cs := CancellingJobIDs();
      var done2 := FinalizeAll(cs, s, Elements(js), false);
      ElementsAre(cs);
      SweepEnd(s, Elements(js) + Elements(cs));
      TickReports(s, js, cs, done1, done2);
      done := done1 + done2;
    }

    // ---------- the store's guarded writes ----------

    /** A job needs between one and MAX_ROWS rows; otherwise nothing is written. */
    method CreateBatchJob(j: int, ids: seq<int>, concurrency: int, score: real, urgent: bool) returns (ok: bool)
      requires up && j !in jobs && (forall k :: k in ids ==> k !in rows)
      requires forall a, b :: 0 <= a < b < |ids| ==> ids[a] != ids[b]
      modifies this
      ensures ok == (0 < |ids| <= 5000)
      ensures ok ==> Abs() == Apply(old(Abs()), Submit(j, ids, concurrency, score, urgent))
      ensures ok ==>
        && jobs == old(jobs)[j := Job(JQueued, concurrency, score, urgent, Totals(|ids|, 0, 0, 0), 0, 0)]
        && rows.Keys == old(rows).Keys + (set k | k in ids)
        && (forall k :: k in old(rows) ==> rows[k] == old(rows)[k])
        && forall i :: 0 <= i < |ids| ==>
          ids[i] in rows && rows[ids[i]] == Row(j, i, Queued, Handles("", "", ""), false, 0, 0, 0, 0, false)
      ensures !ok ==> Abs() == old(Abs())
    {
      if |ids| == 0 || |ids| > MAX_ROWS { return false; }
      jobs := jobs[j := Job(JQueued, concurrency, score, urgent, Totals(|ids|, 0, 0, 0), 0, 0)];
      rows := rows + NewRows(j, ids);
      ok := true;
    }

    method MarkItemDifyStarted(r: int)
      requires Enabled(Abs(), OpenStream(r))
      modifies this`rows
      ensures Abs() == Apply(old(Abs()), OpenStream(r))
      ensures rows == old(rows)[r := old(rows)[r].(
        stamped := true, paid := true, starts := old(rows)[r].starts + if old(rows)[r].paid then 0 else 1)]
    {
      rows := rows[r := Paid(rows[r])];
      if !rows[r].stamped { rows := rows[r := rows[r].(stamped := true)]; }
    }

    method SaveItemDifyRef(r: int, ids: Handles)
      requires Enabled(Abs(), Capture(r, ids))
      modifies this`rows
      ensures Abs() == Apply(old(Abs()), Capture(r, ids))
      ensures ids == Handles("", "", "") ==> rows == old(rows)
      ensures ids != Handles("", "", "") ==> (
        var was := old(rows)[r];
        rows == old(rows)[r := was.(
          ids := Handles(if ids.run == "" then was.ids.run else ids.run,
                         if ids.conv == "" then was.ids.conv else ids.conv,
                         if ids.task == "" then was.ids.task else ids.task),
          paid := true, starts := was.starts + if was.paid then 0 else 1)])
    {
      rows := rows[r := Captured(rows[r], ids)];
    }

    /** FinishItem is unconditional on the row's status; an absent row is left absent. */
    method FinishItem(r: int, o: Outcome, run: string)
      modifies this`rows
      ensures rows == if r in old(rows) then old(rows)[r := Finished(old(rows)[r], o, run)] else old(rows)
      ensures r in old(rows) ==> (
        var was, now := old(rows)[r], rows[r];
        && now == was.(status := now.status,
                       ids := Handles(if run == "" then was.ids.run else run, was.ids.conv, was.ids.task))
        && (o == Ok ==> now.status == Succeeded) && (o == PartlyOk ==> now.status == Partial)
        && (o == Failure ==> now.status == Failed) && (o == Lost ==> now.status == Untracked))
    {
      if r in rows { rows := rows[r := Finished(rows[r], o, run)]; }
    }

    /** The end of a dispatch goroutine: an aborted run is recorded as cancelled, any other with its
        outcome; then the row is let go. */
    method EndDispatch(r: int, aborted: bool, o: Outcome, run: string)
      requires Enabled(Abs(), Finish(r, o, run))
      modifies this`rows, this`live
      ensures Abs() == Apply(old(Abs()), if aborted then Abort(r) else Finish(r, o, run))
      ensures live == old(live) - {r}
      ensures aborted ==> rows == old(rows)[r := old(rows)[r].(status := Cancelled)]
    {
      if aborted {
        rows := rows[r := rows[r].(status := Cancelled)];
      } else {
        FinishItem(r, o, run);
      }
      live := live - {r};
    }

    method CancelQueuedItem(r: int) returns (won: bool)
      requires Enabled(Abs(), CancelRow(r))
      modifies this`rows
      ensures Abs() == Apply(old(Abs()), CancelRow(r))
      ensures won == (old(rows)[r].status == Queued)
      ensures rows == if won then old(rows)[r := old(rows)[r].(status := Cancelled)] else old(rows)
    {
      won := rows[r].status == Queued;
      if won { rows := rows[r := rows[r].(status := Cancelled)]; }
    }

    method CancelBatchJob(j: int)
      modifies this`jobs
      ensures Abs() == CancelState(old(Abs()), j)
      ensures j in old(jobs) ==> j in jobs && jobs == old(jobs)[j := old(jobs)[j].(status := jobs[j].status)]
      ensures j in old(jobs) && old(jobs)[j].status == JQueued ==> jobs[j].status == JCancelled
      ensures j in old(jobs) && old(jobs)[j].status == JRunning ==> jobs[j].status == JCancelling
      ensures j !in old(jobs) || old(jobs)[j].status !in {JQueued, JRunning} ==> jobs == old(jobs)
    {
      if j in jobs && jobs[j].status == JQueued {
        jobs := jobs[j := jobs[j].(status := JCancelled)];
      } else if j in jobs && jobs[j].status == JRunning {
        jobs := jobs[j := jobs[j].(status := JCancelling)];
      }
    }

    /** Without statuses only failed rows are requeued. */
    method RequeueItems(j: int, statuses: set<RowStatus>) returns (n: nat)
      modifies this`jobs, this`rows
      ensures var st := if statuses == {} then {Failed} else statuses;
        && Abs() == RetryState(old(Abs()), j, st)
        && n == |set r | r in old(rows) && old(rows)[r].job == j && old(rows)[r].status in st|
        && rows.Keys == old(rows).Keys
        && forall r :: r in old(rows) ==>
          rows[r] == (if old(rows)[r].job == j && old(rows)[r].status in st then
                        old(rows)[r].(status := Queued, ids := Handles("", "", ""), paid := false,
                                      retries := old(rows)[r].retries + 1)
                      else old(rows)[r])
      ensures jobs == if j !in old(jobs) then old(jobs)
                      else old(jobs)[j := old(jobs)[j].(status := JQueued, retries := old(jobs)[j].retries + 1)]
    {
      var st := if statuses == {} then {Failed} else statuses;
      n := |set r | r in rows && rows[r].job == j && rows[r].status in st|;
      rows := map r | r in rows :: if rows[r].job == j && rows[r].status in st then Requeued(rows[r]) else rows[r];
      if j in jobs { jobs := jobs[j := jobs[j].(status := JQueued, retries := jobs[j].retries + 1)]; }
    }

    method ExpireJob(j: int)
      requires Enabled(Abs(), Expire(j))
      modifies this`jobs
      ensures Abs() == Apply(old(Abs()), Expire(j))
      ensures jobs == if old(jobs)[j].status == JQueued then old(jobs)[j := old(jobs)[j].(status := JExpired)]
                      else old(jobs)
    {
      if jobs[j].status == JQueued { jobs := jobs[j := jobs[j].(status := JExpired)]; }
    }

    // ---------- recovery ----------

    /** The rows that recovery leaves running: those whose remote run can be asked about. */
    method ResumableInFlightItems() returns (ids: set<int>)
      ensures ids == Having(RecoverState(Abs()).rows, Running)
      ensures ids == set r |
        r in rows && rows[r].status == Running && (rows[r].ids.run != "" || rows[r].ids.conv != "")
    {
      RecoverySplits(Abs());
      ids := set r | r in rows && rows[r].status == Running && Pollable(rows[r]);
      hide RecoverState, Having;
    }

    method StartedUnreconcilableItems() returns (ids: seq<int>)
      ensures forall r :: r in ids <==>
        r in rows && rows[r].status == Running && !Pollable(rows[r]) && Evidence(rows[r])
      ensures forall r :: r in ids <==>
        && r in rows && rows[r].status == Running && rows[r].ids.run == "" && rows[r].ids.conv == ""
        && (rows[r].ids.task != "" || rows[r].stamped)
      ensures forall i, k :: 0 <= i < k < |ids| ==> ids[i] < ids[k]
    {
      var pick := set r | r in rows && rows[r].status == Running && !Pollable(rows[r]) && Evidence(rows[r]);
      ids := InOrder(pick, map r | r in rows :: r);
    }

    method ResetInFlightItems()
      modifies this`rows
      ensures rows == map r | r in old(rows) ::
        if old(rows)[r].status == Running && old(rows)[r].ids == Handles("", "", "") && !old(rows)[r].stamped
        then old(rows)[r].(status := Queued, resets := old(rows)[r].resets + 1) else old(rows)[r]
    {
      rows := map r | r in rows :: if rows[r].status == Running && !Evidence(rows[r]) then Reset(rows[r]) else rows[r];
    }

    method MarkUntracked(stuck: seq<int>)
      requires forall i, k :: 0 <= i < k < |stuck| ==> stuck[i] < stuck[k]
      requires forall r :: r in stuck ==> r in rows
      modifies this`rows
      ensures rows == map r | r in old(rows) :: if r in stuck then Finished(old(rows)[r], Lost, "") else old(rows)[r]
    {
      ghost var was := rows;
      for i := 0 to |stuck|
        invariant rows.Keys == was.Keys
        invariant forall r :: r in was ==> rows[r] == if r in stuck[..i] then Finished(was[r], Lost, "") else was[r]
      {
        assert stuck[..i + 1] == stuck[..i] + [stuck[i]];
        assert stuck[i] !in stuck[..i];
        FinishItem(stuck[i], Lost, "");
      }
      assert stuck[..|stuck|] == stuck;
      ghost var want := map r | r in was :: if r in stuck then Finished(was[r], Lost, "") else was[r];
      forall r | r in was ensures rows[r] == want[r] {
      }
      SameMap(rows, want);
    }

    method Recover()
      requires !up
      modifies this
      ensures Abs() == RecoverState(old(Abs()))
    {
      ghost var was := rows;
      RecoverySplits(Abs());
      hide RecoverState;
      var resumable := ResumableInFlightItems();
      polled := resumable;
      var stuck := StartedUnreconcilableItems();
      MarkUntracked(stuck);
      ghost var marked := rows;
      ResetInFlightItems();
      live := {};
      up := true;
      RecoverWhole(old(Abs()), stuck, marked, rows, polled);
    }

    method ResumeBatchJobs(budget: int, reserved: int, due: set<int>) returns (admitted: set<int>)
      requires Inv(Abs()) && !up
      modifies this
      ensures Enabled(RecoverState(old(Abs())), Tick(admitted, budget, due))
      ensures Abs() == Apply(RecoverState(old(Abs())), Tick(admitted, budget, due))
      ensures Inv(Abs())
    {
      ResumeKeeps(Abs());
      Recover();
      ghost var s := Abs();
      var done: seq<int>;
      admitted, done := ScheduleTick(budget, reserved, due);
      StepKeeps(s, Tick(admitted, budget, due));
      forall j | j in s.jobs ensures NotStranded(Abs(), j) {
        TickStrandsNobody(s, admitted, j);
      }
      ghost var t := Abs();
      assert t.jobs.Keys == s.jobs.Keys;
      hide Apply;
      hide RecoverState;
      hide Enabled;
      var pick := set j | j in jobs && (jobs[j].status == JRunning || jobs[j].status == JCancelling);
      var ids := InOrder(pick, map j | j in jobs :: j);
      for i := 0 to |ids|
        invariant Abs() == t
      {
        assert NotStranded(t, ids[i]);
        var fin := FinalizeLocked(ids[i]);
      }
    }
  }
}
