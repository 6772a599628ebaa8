/** Retention of the prediction ledger by whole months of one report type: nominated on one reading,
    verified again and deleted in one transaction on a later one. */
module PredictionPurge {
  import opened FiniteSets
  import opened Options
  import opened Seqs
  import TextOrder

  datatype Month = Month(rtype: string, cohort: string)
  datatype PSet = PSet(id: int, month: Month, report: Option<int>, madeOn: string)
  datatype Mark = Mark(setId: int, status: string, resolvedAt: Option<string>)
  datatype Claim = Claim(setId: int, kind: string)

  /** purged holds one marker per month, with the number of sets it removed. */
  datatype Ledger = Ledger(sets: seq<PSet>, claims: seq<Claim>, marks: seq<Mark>, purged: map<Month, nat>)

  predicate Terminal(status: string) { status == "resolved" || status == "refused_final" }

  function DateOf(s: string): string { if |s| <= 10 then s else s[..10] }

  // ---------- when a set is settled ----------

  /** MAX over texts, a missing one ignored. */
  function MaxText(a: Option<string>, b: Option<string>): Option<string> {
    if a.None? then b else if b.None? then a
    else if TextOrder.Less(a.value, b.value) then b else a
  }

  function LastResolved(marks: seq<Mark>, id: int): Option<string> {
    if marks == [] then None
    else
      var last := marks[|marks| - 1];
      MaxText(LastResolved(marks[..|marks| - 1], id), if last.setId == id then last.resolvedAt else None)
  }

  /** The date a set became final: of its last resolution, or of its making when nothing was resolved. */
  function Settled(l: Ledger, s: PSet): string {
    match LastResolved(l.marks, s.id)
    case Some(t) => DateOf(t)
    case None => DateOf(s.madeOn)
  }

  predicate HasLive(l: Ledger, s: PSet) {
    exists k :: 0 <= k < |l.marks| && l.marks[k].setId == s.id && !Terminal(l.marks[k].status)
  }

  lemma {:induction false} DateMonotone(a: string, b: string, n: nat)
    requires TextOrder.AtMost(a, b)
    ensures TextOrder.AtMost(if |a| <= n then a else a[..n], if |b| <= n then b else b[..n])
    decreases n
  {
    if n == 0 {
    } else if a == "" || b == "" {
    } else if a[0] == b[0] {
      var x, y := a[1..], b[1..];
      DateMonotone(x, y, n - 1);
      var p, q := if |a| <= n then a else a[..n], if |b| <= n then b else b[..n];
      assert p[1..] == if |x| <= n - 1 then x else x[..n - 1];
      assert q[1..] == if |y| <= n - 1 then y else y[..n - 1];
    }
  }

  lemma AtMostLess(a: string, b: string, c: string)
    requires TextOrder.AtMost(a, b) && TextOrder.Less(b, c)
    ensures TextOrder.Less(a, c)
  {
    TextOrder.Total(a, b);
    if TextOrder.Less(a, b) { TextOrder.Transitive(a, b, c); }
  }

  lemma AtMostChain(a: string, b: string, c: string)
    requires TextOrder.AtMost(a, b) && TextOrder.AtMost(b, c)
    ensures TextOrder.AtMost(a, c)
  {
    if TextOrder.Less(c, a) {
      TextOrder.Total(a, b);
      if a != b { TextOrder.Transitive(c, a, b); }
    }
  }

  lemma {:induction false} LastResolvedIsMax(marks: seq<Mark>, id: int)
    ensures var m := LastResolved(marks, id);
      && (m.None? <==> forall k :: 0 <= k < |marks| && marks[k].setId == id ==> marks[k].resolvedAt.None?)
      && (m.Some? ==> exists k :: 0 <= k < |marks| && marks[k].setId == id && marks[k].resolvedAt == m)
      && (m.Some? ==> forall k :: 0 <= k < |marks| && marks[k].setId == id && marks[k].resolvedAt.Some? ==>
        TextOrder.AtMost(marks[k].resolvedAt.value, m.value))
  {
    if marks != [] {
      var n := |marks| - 1;
      LastResolvedIsMax(marks[..n], id);
      var front := LastResolved(marks[..n], id);
      var mine := if marks[n].setId == id then marks[n].resolvedAt else None;
      assert forall k :: 0 <= k < n ==> marks[..n][k] == marks[k];
      if front.Some? && mine.Some? {
        TextOrder.Irreflexive(front.value);
        TextOrder.Asymmetric(front.value, mine.value);
        if TextOrder.Less(front.value, mine.value) {
          TextOrder.Irreflexive(mine.value);
          forall k | 0 <= k < n && marks[k].setId == id && marks[k].resolvedAt.Some?
            ensures TextOrder.AtMost(marks[k].resolvedAt.value, mine.value)
          {
            AtMostChain(marks[k].resolvedAt.value, front.value, mine.value);
          }
        }
      } else if mine.Some? {
        TextOrder.Irreflexive(mine.value);
      }
    }
  }

  /** A set is older than the cutoff exactly when every resolution of it is, or its making when there is
      none: taking the date of the latest text loses nothing. */
  lemma SettledMeans(l: Ledger, s: PSet, cutoff: string)
    ensures TextOrder.Less(Settled(l, s), cutoff) <==>
      if forall k :: 0 <= k < |l.marks| && l.marks[k].setId == s.id ==> l.marks[k].resolvedAt.None?
      then TextOrder.Less(DateOf(s.madeOn), cutoff)
      else forall k :: 0 <= k < |l.marks| && l.marks[k].setId == s.id && l.marks[k].resolvedAt.Some? ==>
        TextOrder.Less(DateOf(l.marks[k].resolvedAt.value), cutoff)
  {
    LastResolvedIsMax(l.marks, s.id);
    var m := LastResolved(l.marks, s.id);
    if m.Some? {
      forall k | 0 <= k < |l.marks| && l.marks[k].setId == s.id && l.marks[k].resolvedAt.Some?
        && TextOrder.Less(DateOf(m.value), cutoff)
        ensures TextOrder.Less(DateOf(l.marks[k].resolvedAt.value), cutoff)
      {
        DateMonotone(l.marks[k].resolvedAt.value, m.value, 10);
        AtMostLess(DateOf(l.marks[k].resolvedAt.value), DateOf(m.value), cutoff);
      }
    }
  }

  // ---------- the month predicate ----------

  predicate SetEligible(l: Ledger, s: PSet, cutoff: string) {
    s.report.None? && !HasLive(l, s) && TextOrder.Less(Settled(l, s), cutoff)
  }

  /** A month may go only as a whole: it has sets, and every one of them may go. */
  predicate Eligible(l: Ledger, m: Month, cutoff: string) {
    && (exists i :: 0 <= i < |l.sets| && l.sets[i].month == m)
    && forall i :: 0 <= i < |l.sets| && l.sets[i].month == m ==> SetEligible(l, l.sets[i], cutoff)
  }

  /** When a month may go, read off the ledger: it has sets, and each is linked to no report, has no mark but
      resolved ones and final refusals, and bears only days before the cutoff: those of its resolutions, or the day
      it was made when it has none. */
  lemma EligibleMeans(l: Ledger, m: Month, cutoff: string)
    ensures Eligible(l, m, cutoff) <==>
      && (exists i :: 0 <= i < |l.sets| && l.sets[i].month == m)
      && forall i :: 0 <= i < |l.sets| && l.sets[i].month == m ==>
        var s := l.sets[i];
        && s.report.None?
        && (forall k :: 0 <= k < |l.marks| && l.marks[k].setId == s.id ==>
            l.marks[k].status in ["resolved", "refused_final"])
        && (forall k :: 0 <= k < |l.marks| && l.marks[k].setId == s.id && l.marks[k].resolvedAt.Some? ==>
            var at := l.marks[k].resolvedAt.value; TextOrder.Less(if |at| > 10 then at[..10] else at, cutoff))
        && ((forall k :: 0 <= k < |l.marks| && l.marks[k].setId == s.id ==> l.marks[k].resolvedAt.None?) ==>
            TextOrder.Less(if |s.madeOn| > 10 then s.madeOn[..10] else s.madeOn, cutoff))
  {
    forall i | 0 <= i < |l.sets| && l.sets[i].month == m
      ensures SetEligible(l, l.sets[i], cutoff) <==> (
        var s := l.sets[i];
        && s.report.None?
        && (forall k :: 0 <= k < |l.marks| && l.marks[k].setId == s.id ==>
            l.marks[k].status in ["resolved", "refused_final"])
        && (forall k :: 0 <= k < |l.marks| && l.marks[k].setId == s.id && l.marks[k].resolvedAt.Some? ==>
            var at := l.marks[k].resolvedAt.value; TextOrder.Less(if |at| > 10 then at[..10] else at, cutoff))
        && ((forall k :: 0 <= k < |l.marks| && l.marks[k].setId == s.id ==> l.marks[k].resolvedAt.None?) ==>
            TextOrder.Less(if |s.madeOn| > 10 then s.madeOn[..10] else s.madeOn, cutoff)))
    {
      SettledMeans(l, l.sets[i], cutoff);
      hide Settled, TextOrder.Less;
    }
  }

  datatype Totals = Totals(all: nat, orphan: nat, live: nat, newest: Option<string>)

  function InMonth(m: Month): PSet -> bool { (s: PSet) => s.month == m }
  function OrphanIn(m: Month): PSet -> bool { (s: PSet) => s.month == m && s.report.None? }
  function LiveIn(l: Ledger, m: Month): PSet -> bool { (s: PSet) => s.month == m && HasLive(l, s) }

  /** Where the condition holds among the first n sets. */
  function Where(p: PSet -> bool, sets: seq<PSet>, n: nat): set<int>
    requires n <= |sets|
  {
    set i | 0 <= i < n && p(sets[i])
  }

  lemma WhereNext(p: PSet -> bool, sets: seq<PSet>, n: nat)
    requires n < |sets|
    ensures |Where(p, sets, n + 1)| == |Where(p, sets, n)| + if p(sets[n]) then 1 else 0
  {
    assert Where(p, sets, n + 1) == Where(p, sets, n) + if p(sets[n]) then {n} else {};
  }

  /** COUNT, the two SUMs and MAX over the sets of one month, as the query computes them. */
  predicate Sums(l: Ledger, m: Month, n: nat, t: Totals)
    requires n <= |l.sets|
  {
    && t.all == |Where(InMonth(m), l.sets, n)|
    && t.orphan == |Where(OrphanIn(m), l.sets, n)|
    && t.live == |Where(LiveIn(l, m), l.sets, n)|
    && (t.newest.None? <==> forall i :: 0 <= i < n ==> l.sets[i].month != m)
    && (t.newest.Some? ==> exists i :: 0 <= i < n && l.sets[i].month == m && Settled(l, l.sets[i]) == t.newest.value)
    && (t.newest.Some? ==> forall i :: 0 <= i < n && l.sets[i].month == m ==>
      TextOrder.AtMost(Settled(l, l.sets[i]), t.newest.value))
  }

  function AddSet(l: Ledger, t: Totals, s: PSet): Totals {
    Totals(t.all + 1, t.orphan + (if s.report.None? then 1 else 0), t.live + (if HasLive(l, s) then 1 else 0),
           MaxText(t.newest, Some(Settled(l, s))))
  }

  lemma SumsStep(l: Ledger, m: Month, n: nat, t: Totals)
    requires n < |l.sets| && Sums(l, m, n, t)
    ensures Sums(l, m, n + 1, if l.sets[n].month == m then AddSet(l, t, l.sets[n]) else t)
  {
    WhereNext(InMonth(m), l.sets, n);
    WhereNext(OrphanIn(m), l.sets, n);
    WhereNext(LiveIn(l, m), l.sets, n);
    hide Where;
    if l.sets[n].month == m {
      var s := l.sets[n];
      var r := AddSet(l, t, s);
      TextOrder.Irreflexive(Settled(l, s));
      hide Settled, HasLive;
      forall i | 0 <= i < n + 1 && l.sets[i].month == m
        ensures TextOrder.AtMost(Settled(l, l.sets[i]), r.newest.value)
      {
        if i < n && TextOrder.Less(t.newest.value, Settled(l, s)) {
          TextOrder.Asymmetric(t.newest.value, Settled(l, s));
          AtMostChain(Settled(l, l.sets[i]), t.newest.value, Settled(l, s));
        }
      }
    }
  }

  method Aggregate(l: Ledger, m: Month) returns (t: Totals)
    ensures Sums(l, m, |l.sets|, t)
  {
    t := Totals(0, 0, 0, None);
    var n := 0;
    while n < |l.sets|
      invariant 0 <= n <= |l.sets| && Sums(l, m, n, t)
    {
      SumsStep(l, m, n, t);
      hide Sums, HasLive, Settled;
      if l.sets[n].month == m {
        t := AddSet(l, t, l.sets[n]);
      }
      n := n + 1;
    }
  }

  predicate Passes(t: Totals, cutoff: string) {
    t.all > 0 && t.orphan == t.all && t.live == 0 && t.newest.Some? && TextOrder.Less(t.newest.value, cutoff)
  }

  lemma SumsMean(l: Ledger, m: Month, t: Totals)
    requires Sums(l, m, |l.sets|, t)
    ensures t.all == 0 <==> forall i :: 0 <= i < |l.sets| ==> l.sets[i].month != m
    ensures t.orphan == t.all <==>
      forall i :: 0 <= i < |l.sets| && l.sets[i].month == m ==> l.sets[i].report.None?
    ensures t.live == 0 <==> forall i :: 0 <= i < |l.sets| && l.sets[i].month == m ==> !HasLive(l, l.sets[i])
  {
    hide HasLive, Settled;
    var all, orphans, live := Where(InMonth(m), l.sets, |l.sets|), Where(OrphanIn(m), l.sets, |l.sets|),
                              Where(LiveIn(l, m), l.sets, |l.sets|);
    forall i | 0 <= i < |l.sets|
      ensures i in all <==> l.sets[i].month == m
      ensures i in orphans <==> l.sets[i].month == m && l.sets[i].report.None?
      ensures i in live <==> l.sets[i].month == m && HasLive(l, l.sets[i])
    {
    }
    if |orphans| == |all| { SameSize(orphans, all); } else { assert orphans != all; }
  }

  lemma SumsDecide(l: Ledger, m: Month, t: Totals, cutoff: string)
    requires Sums(l, m, |l.sets|, t)
    ensures Passes(t, cutoff) <==> Eligible(l, m, cutoff)
  {
    SumsMean(l, m, t);
    if Passes(t, cutoff) {
      forall i | 0 <= i < |l.sets| && l.sets[i].month == m ensures SetEligible(l, l.sets[i], cutoff) {
        AtMostLess(Settled(l, l.sets[i]), t.newest.value, cutoff);
      }
    }
    if Eligible(l, m, cutoff) {
      forall i | 0 <= i < |l.sets| && l.sets[i].month == m
        ensures l.sets[i].report.None? && !HasLive(l, l.sets[i]) && TextOrder.Less(Settled(l, l.sets[i]), cutoff)
      {
        assert SetEligible(l, l.sets[i], cutoff);
      }
    }
  }

  /** The check inside the deleting transaction. */
  method MonthIsPurgeable(l: Ledger, m: Month, cutoff: string) returns (ok: bool)
    ensures ok <==> Eligible(l, m, cutoff)
  {
    var t := Aggregate(l, m);
    SumsDecide(l, m, t, cutoff);
    if t.all == 0 { return false; }
    if t.orphan != t.all || t.live != 0 { return false; }
    ok := t.newest.Some? && TextOrder.Less(t.newest.value, cutoff);
  }

  predicate Distinct(months: seq<Month>) { forall i, j :: 0 <= i < j < |months| ==> months[i] != months[j] }

  lemma Nominates(l: Ledger, n: nat, t: Totals, cutoff: string)
    requires n < |l.sets| && Sums(l, l.sets[n].month, |l.sets|, t)
    ensures t.orphan == t.all && t.live == 0 && t.newest.Some? && TextOrder.Less(t.newest.value, cutoff)
            <==> Eligible(l, l.sets[n].month, cutoff)
  {
    SumsMean(l, l.sets[n].month, t);
    SumsDecide(l, l.sets[n].month, t, cutoff);
    hide Sums, Eligible;
  }

  /** The nominating query: one group per month, those that pass. It nominates exactly the months the
      check accepts on the same ledger. */
  method PurgeMonths(l: Ledger, cutoff: string) returns (months: seq<Month>)
    ensures Distinct(months) && forall m :: m in months <==> Eligible(l, m, cutoff)
  {
    months := [];
    var seen: set<Month> := {};
    var n := 0;
    while n < |l.sets|
      invariant 0 <= n <= |l.sets| && Distinct(months)
      invariant forall m :: m in seen <==> exists i :: 0 <= i < n && l.sets[i].month == m
      invariant forall m :: m in months <==> m in seen && Eligible(l, m, cutoff)
    {
      var m := l.sets[n].month;
      if m !in seen {
        var t := Aggregate(l, m);
        Nominates(l, n, t, cutoff);
        hide Sums, Eligible, TextOrder.Less;
        if t.orphan == t.all && t.live == 0 && t.newest.Some? && TextOrder.Less(t.newest.value, cutoff) {
          months := months + [m];
        }
      }
      seen := seen + {m};
      n := n + 1;
    }
  }

  // ---------- deletion ----------

  function NotIn(ms: set<Month>): PSet -> bool { (s: PSet) => s.month !in ms }

  /** The ids of the sets of some months. */
  function IdsIn(sets: seq<PSet>, ms: set<Month>): set<int> {
    set i | 0 <= i < |sets| && sets[i].month in ms :: sets[i].id
  }

  function ClaimOutside(ids: set<int>): Claim -> bool { (c: Claim) => c.setId !in ids }
  function MarkOutside(ids: set<int>): Mark -> bool { (k: Mark) => k.setId !in ids }

  function MonthSets(l: Ledger, m: Month): seq<PSet> { Filter(InMonth(m), l.sets) }

  /** The ledger without some months: their sets, and the claims and marks of those sets. */
  function Without(l: Ledger, ms: set<Month>): Ledger {
    var ids := IdsIn(l.sets, ms);
    l.(sets := Filter(NotIn(ms), l.sets), claims := Filter(ClaimOutside(ids), l.claims),
       marks := Filter(MarkOutside(ids), l.marks))
  }

  predicate IdsUnique(l: Ledger) {
    forall i, j :: 0 <= i < j < |l.sets| ==> l.sets[i].id != l.sets[j].id
  }

  lemma FilterAgain<T(!new)>(p: T -> bool, q: T -> bool, r: T -> bool, s: seq<T>)
    requires forall x :: x in s ==> (r(x) <==> p(x) && q(x))
    ensures Filter(p, Filter(q, s)) == Filter(r, s)
  {
    FilterTwice(p, q, s);
    FilterSame(Both(p, q), r, s);
  }

  lemma KeptSets(l: Ledger, ms: set<Month>, s: PSet)
    ensures s in Filter(NotIn(ms), l.sets) <==> s in l.sets && s.month !in ms
  {
    FilterIn(NotIn(ms), l.sets);
  }

  lemma IdsInAre(sets: seq<PSet>, ms: set<Month>)
    ensures forall id :: id in IdsIn(sets, ms) <==> exists s :: s in sets && s.month in ms && s.id == id
  {
    forall s | s in sets && s.month in ms ensures s.id in IdsIn(sets, ms) {
      var i :| 0 <= i < |sets| && sets[i] == s;
    }
  }

  /** Deleting month after month deletes all of them. */
  lemma WithoutOneMore(l: Ledger, ms: set<Month>, m: Month)
    ensures Without(Without(l, ms), {m}) == Without(l, ms + {m})
  {
    var a := Without(l, ms);
    var old_, more := IdsIn(l.sets, ms), IdsIn(a.sets, {m});
    var all := IdsIn(l.sets, ms + {m});
    FilterAgain(NotIn({m}), NotIn(ms), NotIn(ms + {m}), l.sets);
    IdsInAre(l.sets, ms);
    IdsInAre(l.sets, ms + {m});
    IdsInAre(a.sets, {m});
    forall s: PSet ensures s in a.sets <==> s in l.sets && s.month !in ms { KeptSets(l, ms, s); }
    assert forall id :: id in all <==> id in old_ || id in more;
    FilterAgain(ClaimOutside(more), ClaimOutside(old_), ClaimOutside(all), l.claims);
    FilterAgain(MarkOutside(more), MarkOutside(old_), MarkOutside(all), l.marks);
  }

  // ---------- what deletion leaves alone ----------

  lemma LastResolvedStep(front: seq<Mark>, k: Mark, id: int)
    ensures LastResolved(front + [k], id)
      == MaxText(LastResolved(front, id), if k.setId == id then k.resolvedAt else None)
  {
    assert (front + [k])[..|front|] == front;
  }

  lemma {:induction false} LastResolvedOutside(marks: seq<Mark>, ids: set<int>, id: int)
    requires id !in ids
    ensures LastResolved(Filter(MarkOutside(ids), marks), id) == LastResolved(marks, id)
  {
    if marks != [] {
      var front, k := marks[..|marks| - 1], marks[|marks| - 1];
      LastResolvedOutside(front, ids, id);
      OutsideStep(front, k, ids, id);
      hide *;
      assert marks == front + [k];
    }
  }

  lemma OutsideStep(front: seq<Mark>, k: Mark, ids: set<int>, id: int)
    requires id !in ids && LastResolved(Filter(MarkOutside(ids), front), id) == LastResolved(front, id)
    ensures LastResolved(Filter(MarkOutside(ids), front + [k]), id) == LastResolved(front + [k], id)
  {
    FilterSnoc(MarkOutside(ids), front, k);
    LastResolvedStep(front, k, id);
    LastResolvedStep(Filter(MarkOutside(ids), front), k, id);
    hide Filter, LastResolved;
  }

  lemma OutsideId(l: Ledger, ms: set<Month>, s: PSet)
    requires IdsUnique(l) && s in l.sets && s.month !in ms
    ensures s.id !in IdsIn(l.sets, ms)
  {
    var i :| 0 <= i < |l.sets| && l.sets[i] == s;
  }

  lemma SetUnaffected(l: Ledger, ms: set<Month>, s: PSet, cutoff: string)
    requires IdsUnique(l) && s in l.sets && s.month !in ms
    ensures SetEligible(Without(l, ms), s, cutoff) <==> SetEligible(l, s, cutoff)
  {
    var ids, a := IdsIn(l.sets, ms), Without(l, ms);
    OutsideId(l, ms, s);
    LastResolvedOutside(l.marks, ids, s.id);
    FilterIn(MarkOutside(ids), l.marks);
    hide Filter, IdsIn, LastResolved;
    if HasLive(l, s) {
      var k :| 0 <= k < |l.marks| && l.marks[k].setId == s.id && !Terminal(l.marks[k].status);
      assert l.marks[k] in a.marks;
      var j :| 0 <= j < |a.marks| && a.marks[j] == l.marks[k];
    }
    if HasLive(a, s) {
      var k :| 0 <= k < |a.marks| && a.marks[k].setId == s.id && !Terminal(a.marks[k].status);
      assert a.marks[k] in l.marks;
      var j :| 0 <= j < |l.marks| && l.marks[j] == a.marks[k];
    }
  }

  lemma EligibleMembers(l: Ledger, m: Month, cutoff: string)
    ensures Eligible(l, m, cutoff) <==>
      (exists s :: s in l.sets && s.month == m) && forall s :: s in l.sets && s.month == m ==> SetEligible(l, s, cutoff)
  {
    if exists s :: s in l.sets && s.month == m {
      var s :| s in l.sets && s.month == m;
      var i :| 0 <= i < |l.sets| && l.sets[i] == s;
    }
    if Eligible(l, m, cutoff) {
      var i :| 0 <= i < |l.sets| && l.sets[i].month == m;
      assert l.sets[i] in l.sets;
    }
  }

  /** Purging some months does not change whether another may go. */
  lemma EligibleElsewhere(l: Ledger, ms: set<Month>, m: Month, cutoff: string, purged: map<Month, nat>)
    requires IdsUnique(l) && m !in ms
    ensures Eligible(Without(l, ms).(purged := purged), m, cutoff) <==> Eligible(l, m, cutoff)
  {
    var a := Without(l, ms);
    forall s: PSet ensures s in a.sets <==> s in l.sets && s.month !in ms { KeptSets(l, ms, s); }
    forall s | s in l.sets && s.month == m
      ensures SetEligible(a.(purged := purged), s, cutoff) <==> SetEligible(l, s, cutoff)
    {
      SetUnaffected(l, ms, s, cutoff);
      SameExceptMarkers(a, purged, s, cutoff);
    }
    EligibleMembers(l, m, cutoff);
    EligibleMembers(a.(purged := purged), m, cutoff);
    hide Without, Eligible, SetEligible;
  }

  lemma SameExceptMarkers(l: Ledger, purged: map<Month, nat>, s: PSet, cutoff: string)
    ensures SetEligible(l.(purged := purged), s, cutoff) == SetEligible(l, s, cutoff)
  {
    hide LastResolved;
  }

  function OfSets(ids: set<int>): Claim -> bool { (c: Claim) => c.setId in ids }
  function OnSets(ids: set<int>): Mark -> bool { (k: Mark) => k.setId in ids }

  /** A month is left wholly as it was, with every claim and mark of its sets, or it is gone with all of
      them. */
  lemma MonthsWhole(l: Ledger, ms: set<Month>, m: Month)
    requires IdsUnique(l)
    ensures var a := Without(l, ms); var ids := IdsIn(l.sets, {m});
      if m in ms then
        MonthSets(a, m) == [] && Filter(OfSets(ids), a.claims) == [] && Filter(OnSets(ids), a.marks) == []
      else
        && MonthSets(a, m) == MonthSets(l, m)
        && Filter(OfSets(ids), a.claims) == Filter(OfSets(ids), l.claims)
        && Filter(OnSets(ids), a.marks) == Filter(OnSets(ids), l.marks)
  {
    var a := Without(l, ms);
    var ids, gone := IdsIn(l.sets, {m}), IdsIn(l.sets, ms);
    FilterIn(NotIn(ms), l.sets);
    FilterIn(ClaimOutside(gone), l.claims);
    FilterIn(MarkOutside(gone), l.marks);
    if m in ms {
      assert ids <= gone;
      FilterNone(InMonth(m), a.sets);
      FilterNone(OfSets(ids), a.claims);
      FilterNone(OnSets(ids), a.marks);
    } else {
      forall i, j | 0 <= i < |l.sets| && 0 <= j < |l.sets| && l.sets[i].month == m && l.sets[j].month in ms
        ensures l.sets[i].id != l.sets[j].id
      {
        assert i != j;
      }
      assert ids !! gone;
      FilterAgain(InMonth(m), NotIn(ms), InMonth(m), l.sets);
      FilterAgain(OfSets(ids), ClaimOutside(gone), OfSets(ids), l.claims);
      FilterAgain(OnSets(ids), MarkOutside(gone), OnSets(ids), l.marks);
    }
  }

  predicate NoOrphans(l: Ledger) {
    && (forall c :: c in l.claims ==> exists s :: s in l.sets && s.id == c.setId)
    && (forall k :: k in l.marks ==> exists s :: s in l.sets && s.id == k.setId)
  }

  /** No claim or mark is left pointing at a set that is gone. */
  lemma NoOrphansLeft(l: Ledger, ms: set<Month>)
    requires NoOrphans(l)
    ensures NoOrphans(Without(l, ms))
  {
    var a, gone := Without(l, ms), IdsIn(l.sets, ms);
    FilterIn(ClaimOutside(gone), l.claims);
    FilterIn(MarkOutside(gone), l.marks);
    IdsInAre(l.sets, ms);
    forall s: PSet ensures s in a.sets <==> s in l.sets && s.month !in ms { KeptSets(l, ms, s); }
    hide Filter, IdsIn;
    forall c | c in a.claims ensures exists s :: s in a.sets && s.id == c.setId {
      var s :| s in l.sets && s.id == c.setId;
      assert s in a.sets;
    }
    forall k | k in a.marks ensures exists s :: s in a.sets && s.id == k.setId {
      var s :| s in l.sets && s.id == k.setId;
      assert s in a.sets;
    }
  }

  // ---------- the pass ----------

  lemma {:induction false} CountSplit(sets: seq<PSet>, ms: set<Month>, m: Month)
    requires m !in ms
    ensures |Filter(NotIn(ms), sets)| == |Filter(NotIn(ms + {m}), sets)| + |Filter(InMonth(m), sets)|
  {
    if sets != [] { CountSplit(sets[1..], ms, m); }
  }

  function MonthSet(months: seq<Month>): set<Month> { set m | m in months }

  function EligibleMonths(l: Ledger, cutoff: string): set<Month> {
    set i | 0 <= i < |l.sets| && Eligible(l, l.sets[i].month, cutoff) :: l.sets[i].month
  }

  lemma EligibleAreListed(l: Ledger, cutoff: string, months: seq<Month>)
    requires forall m :: m in months <==> Eligible(l, m, cutoff)
    ensures MonthSet(months) == EligibleMonths(l, cutoff)
  {
  }

  function Removed(l: Ledger, ms: set<Month>): int { |l.sets| - |Without(l, ms).sets| }

  lemma RemovedNothing(l: Ledger)
    ensures Without(l, {}) == l
  {
    assert IdsIn(l.sets, {}) == {};
    FilterAll(NotIn({}), l.sets);
    FilterAll(ClaimOutside({}), l.claims);
    FilterAll(MarkOutside({}), l.marks);
  }

  lemma PrefixSet(months: seq<Month>, i: nat)
    requires Distinct(months) && i < |months|
    ensures MonthSet(months[..i + 1]) == MonthSet(months[..i]) + {months[i]}
    ensures months[i] !in MonthSet(months[..i])
  {
    assert months[..i + 1] == months[..i] + [months[i]];
  }

  /** The dry run: the number of sets a pass over this ledger would remove. */
  method CountBefore(l: Ledger, cutoff: string) returns (n: nat)
    ensures n == Removed(l, EligibleMonths(l, cutoff))
  {
    var months := PurgeMonths(l, cutoff);
    n := 0;
    var i := 0;
    RemovedNothing(l);
    assert MonthSet(months[..0]) == {};
    while i < |months|
      invariant 0 <= i <= |months|
      invariant n == Removed(l, MonthSet(months[..i]))
    {
      PrefixSet(months, i);
      CountSplit(l.sets, MonthSet(months[..i]), months[i]);
      n := n + |MonthSets(l, months[i])|;
      i := i + 1;
    }
    assert months[..i] == months;
    EligibleAreListed(l, cutoff, months);
  }

  /** The nominated months that may still go when the transaction looks. */
  function Due(months: seq<Month>, now: Ledger, cutoff: string): set<Month> {
    set m | m in months && Eligible(now, m, cutoff)
  }

  /** One marker per purged month, holding how many sets it had. */
  function Marked(now: Ledger, ms: set<Month>): map<Month, nat> {
    now.purged + map m | m in ms :: |MonthSets(now, m)|
  }

  function Purged(now: Ledger, ms: set<Month>): Ledger {
    Without(now, ms).(purged := Marked(now, ms))
  }

  predicate Clash(now: Ledger, ms: set<Month>) { exists m :: m in ms && m in now.purged }

  /** What purging some months leaves: every other set in place, the claims and marks of no set purged, and for each
      month one more marker with the number of its sets. */
  lemma PurgeLeaves(now: Ledger, ms: set<Month>)
    ensures var after := Purged(now, ms);
      && after.sets == Filter((s: PSet) => s.month !in ms, now.sets)
      && (forall c :: c in after.claims <==>
          c in now.claims && forall s :: s in now.sets && s.id == c.setId ==> s.month !in ms)
      && (forall k :: k in after.marks <==>
          k in now.marks && forall s :: s in now.sets && s.id == k.setId ==> s.month !in ms)
      && after.purged.Keys == now.purged.Keys + ms
      && (forall m :: m in ms ==> after.purged[m] == |Filter((s: PSet) => s.month == m, now.sets)|)
      && (forall m :: m in now.purged && m !in ms ==> after.purged[m] == now.purged[m])
    ensures Removed(now, ms) == |now.sets| - |Purged(now, ms).sets|
    ensures Clash(now, ms) <==> ms * now.purged.Keys != {}
  {
    var ids := IdsIn(now.sets, ms);
    IdsInAre(now.sets, ms);
    FilterIn(ClaimOutside(ids), now.claims);
    FilterIn(MarkOutside(ids), now.marks);
    FilterSame(NotIn(ms), (s: PSet) => s.month !in ms, now.sets);
    if m :| m in ms && m in now.purged { assert m in ms * now.purged.Keys; }
    if ms * now.purged.Keys != {} { var m := Member(ms * now.purged.Keys); }
    hide Filter, IdsIn;
    forall m | m in ms ensures Filter(InMonth(m), now.sets) == Filter((s: PSet) => s.month == m, now.sets) {
      FilterSame(InMonth(m), (s: PSet) => s.month == m, now.sets);
    }
  }

  lemma DueStep(months: seq<Month>, i: nat, now: Ledger, cutoff: string)
    requires Distinct(months) && i < |months|
    ensures Eligible(now, months[i], cutoff) ==>
      Due(months[..i + 1], now, cutoff) == Due(months[..i], now, cutoff) + {months[i]}
    ensures !Eligible(now, months[i], cutoff) ==> Due(months[..i + 1], now, cutoff) == Due(months[..i], now, cutoff)
    ensures months[i] !in Due(months[..i], now, cutoff)
  {
    assert months[..i + 1] == months[..i] + [months[i]];
  }

  lemma MarkersApart(l: Ledger, p: map<Month, nat>, ms: set<Month>, m: Month)
    ensures Without(l.(purged := p), ms) == Without(l, ms).(purged := p)
    ensures MonthSets(l.(purged := p), m) == MonthSets(l, m)
  {
  }

  lemma MarkedStep(now: Ledger, ms: set<Month>, m: Month)
    requires m !in ms && m !in now.purged
    ensures m !in Marked(now, ms)
    ensures Marked(now, ms)[m := |MonthSets(now, m)|] == Marked(now, ms + {m})
  {
    hide Filter;
    SameMap(Marked(now, ms)[m := |MonthSets(now, m)|], Marked(now, ms + {m}));
  }

  lemma PurgedStep(now: Ledger, ms: set<Month>, m: Month)
    requires IdsUnique(now) && m !in ms && m !in now.purged
    ensures m !in Purged(now, ms).purged
    ensures var cur := Purged(now, ms); var n := |MonthSets(cur, m)|;
      && Without(cur, {m}).(purged := cur.purged[m := n]) == Purged(now, ms + {m})
      && n == Removed(now, ms + {m}) - Removed(now, ms)
  {
    var rest := Without(now, ms);
    MarkersApart(rest, Marked(now, ms), {m}, m);
    WithoutOneMore(now, ms, m);
    MonthsWhole(now, ms, m);
    CountSplit(now.sets, ms, m);
    MarkedStep(now, ms, m);
    hide Filter, IdsUnique, Marked, MonthSets;
    assert MonthSets(Purged(now, ms), m) == MonthSets(now, m);
  }

  class Store {
    var ledger: Ledger

    constructor (ledger: Ledger)
      ensures this.ledger == ledger
    {
      this.ledger := ledger;
    }

    /** The pass. now is the ledger its transaction finds, after whatever happened since the months were
        nominated. A month purged before and filled again breaks the unique marker and takes the whole
        pass back. */
    method DeletePredictionsBefore(cutoff: string, now: Ledger) returns (total: nat, ok: bool)
      requires IdsUnique(now)
      modifies this
      ensures var due := EligibleMonths(old(ledger), cutoff) * EligibleMonths(now, cutoff);
        && ok == !Clash(now, due)
        && ledger == (if ok then Purged(now, due) else now)
        && (ok ==> total == Removed(now, due))
    {
      var months := PurgeMonths(ledger, cutoff);
      ghost var before := ledger;
      DueIs(months, before, now, cutoff);
      ledger := now;
      total, ok := 0, true;
      var i := 0;
      StartPurge(months, now, cutoff);
      while i < |months|
        invariant 0 <= i <= |months|
        invariant ledger == Purged(now, Due(months[..i], now, cutoff))
        invariant total == Removed(now, Due(months[..i], now, cutoff))
        invariant !Clash(now, Due(months[..i], now, cutoff))
      {
        var m := months[i];
        ghost var ms := Due(months[..i], now, cutoff);
        DueStep(months, i, now, cutoff);
        EligibleElsewhere(now, ms, m, cutoff, Marked(now, ms));
        var may := MonthIsPurgeable(ledger, m, cutoff);
        if may {
          ClashNow(now, ms, m);
          if m in ledger.purged {
            EarlyClash(months, i, now, cutoff);
            ledger, ok := now, false;
            return;
          }
          PurgedStep(now, ms, m);
          hide Purged, Removed, Without, MonthSets, Due;
          var n := |MonthSets(ledger, m)|;
          ledger := Without(ledger, {m}).(purged := ledger.purged[m := n]);
          total := total + n;
        }
        i := i + 1;
      }
      assert months[..i] == months;
    }
  }

  lemma DueIs(months: seq<Month>, before: Ledger, now: Ledger, cutoff: string)
    requires forall m :: m in months <==> Eligible(before, m, cutoff)
    ensures Due(months, now, cutoff) == EligibleMonths(before, cutoff) * EligibleMonths(now, cutoff)
  {
  }

  lemma StartPurge(months: seq<Month>, now: Ledger, cutoff: string)
    ensures Due(months[..0], now, cutoff) == {} && Purged(now, {}) == now && Removed(now, {}) == 0
  {
    RemovedNothing(now);
    assert Marked(now, {}) == now.purged;
  }

  lemma ClashNow(now: Ledger, ms: set<Month>, m: Month)
    requires m !in ms && !Clash(now, ms)
    ensures m in Purged(now, ms).purged <==> m in now.purged
    ensures Clash(now, ms + {m}) <==> m in now.purged
  {
  }

  lemma EarlyClash(months: seq<Month>, i: nat, now: Ledger, cutoff: string)
    requires i < |months| && Eligible(now, months[i], cutoff) && months[i] in now.purged
    ensures Clash(now, Due(months, now, cutoff))
  {
    assert months[i] in Due(months, now, cutoff);
  }

  // ---------- a month that comes back ----------

  const MAY := Month("daily", "2020-05")
  const FIRST := PSet(1, MAY, None, "2020-05-04")
  const AGAIN := PSet(2, MAY, None, "2020-05-18")
  const OLD_LEDGER := Ledger([FIRST], [], [], map[])
  const REFILLED := Ledger([AGAIN], [], [], map[MAY := 1])

  lemma MadeBefore(s: PSet)
    requires s in {FIRST, AGAIN}
    ensures TextOrder.Less(DateOf(s.madeOn), "2021-01-01")
  {
    assert DateOf(s.madeOn) == s.madeOn;
    assert s.madeOn[1..][0] == '0' && s.madeOn[1..][1..][0] == '2' && s.madeOn[1..][1..][1..][0] == '0';
    assert "2021-01-01"[1..][0] == '0' && "2021-01-01"[1..][1..][0] == '2' && "2021-01-01"[1..][1..][1..][0] == '1';
  }

  lemma OneSetEligible(s: PSet, p: map<Month, nat>)
    requires s in {FIRST, AGAIN}
    ensures EligibleMonths(Ledger([s], [], [], p), "2021-01-01") == {MAY}
  {
    var l := Ledger([s], [], [], p);
    MadeBefore(s);
    hide DateOf, TextOrder.Less;
    assert LastResolved(l.marks, s.id) == None;
    assert SetEligible(l, s, "2021-01-01");
    assert l.sets[0].month == MAY && Eligible(l, MAY, "2021-01-01");
    assert MAY in EligibleMonths(l, "2021-01-01");
  }

  lemma FirstPurged()
    ensures Purged(OLD_LEDGER, {MAY}) == REFILLED.(sets := [])
  {
    var after := Purged(OLD_LEDGER, {MAY});
    var sets := [FIRST];
    assert OLD_LEDGER.sets == sets && sets[1..] == [];
    assert Filter(InMonth(MAY), sets) == [FIRST] + Filter(InMonth(MAY), []);
    assert Filter(NotIn({MAY}), sets) == Filter(NotIn({MAY}), []);
    assert after.purged == map[MAY := 1];
    assert after.sets == [];
  }

  /** A month is purged, one more set is imported into it, and the next pass nominates it again: the pass
      meets the marker the first one left and removes nothing. */
  lemma RefilledMonthClashes()
    ensures EligibleMonths(OLD_LEDGER, "2021-01-01") == {MAY}
    ensures Purged(OLD_LEDGER, {MAY}) == REFILLED.(sets := [])
    ensures EligibleMonths(REFILLED, "2021-01-01") == {MAY} && Clash(REFILLED, {MAY})
  {
    OneSetEligible(FIRST, map[]);
    OneSetEligible(AGAIN, map[MAY := 1]);
    FirstPurged();
    hide EligibleMonths, Purged;
  }
}
