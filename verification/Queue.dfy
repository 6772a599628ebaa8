/** The pure admission rule of the run queue: order the waiting runs by score and fill the free
    slots, holding some of them for urgent runs that are still waiting. */
module Queue {

  datatype Item = Item(id: int, score: real, urgent: bool)
  datatype Plan = Plan(budget: int, reserved: int)

  function Min(a: int, b: int): int { if a <= b then a else b }
  function Max(a: int, b: int): int { if a >= b then a else b }

  /** a is considered before b: higher score first, then the older (lower) id. */
  predicate Before(a: Item, b: Item) {
    a.score > b.score || (a.score == b.score && a.id < b.id)
  }

  predicate Ordered(items: seq<Item>) {
    forall i, j :: 0 <= i < j < |items| ==> !Before(items[j], items[i])
  }

  /** The items of one class, urgent or ordinary, in their given order. */
  function Class(items: seq<Item>, urgent: bool): (r: seq<Item>) {
    if items == [] then []
    else (if items[0].urgent == urgent then [items[0]] else []) + Class(items[1..], urgent)
  }

  function Urgents(items: seq<Item>): seq<Item> { Class(items, true) }
  function Others(items: seq<Item>): seq<Item> { Class(items, false) }

  /** The number of slots the plan may actually hold back. */
  function Held(plan: Plan): int {
    Max(0, Min(plan.reserved, plan.budget - 1))
  }

  lemma {:induction false} ClassConcat(a: seq<Item>, b: seq<Item>, u: bool)
    ensures Class(a + b, u) == Class(a, u) + Class(b, u)
  {
    if a == [] {
      assert a + b == b;
    } else {
      assert (a + b)[1..] == a[1..] + b;
      ClassConcat(a[1..], b, u);
      var h := if a[0].urgent == u then [a[0]] else [];
      assert h + (Class(a[1..], u) + Class(b, u)) == (h + Class(a[1..], u)) + Class(b, u);
    }
  }

  lemma SplitConcat(a: seq<Item>, b: seq<Item>)
    ensures Urgents(a + b) == Urgents(a) + Urgents(b)
    ensures Others(a + b) == Others(a) + Others(b)
  {
    ClassConcat(a, b, true);
    ClassConcat(a, b, false);
  }

  lemma SplitAppend(s: seq<Item>, x: Item)
    ensures Urgents(s + [x]) == Urgents(s) + (if x.urgent then [x] else [])
    ensures Others(s + [x]) == Others(s) + (if x.urgent then [] else [x])
  {
    SplitConcat(s, [x]);
    assert Class([x][1..], true) == Class([x][1..], false) == [];
    assert Class([x], true) == (if x.urgent then [x] else []);
    assert Class([x], false) == (if x.urgent then [] else [x]);
  }

  lemma {:induction false} SplitSizes(s: seq<Item>)
    ensures |Urgents(s)| + |Others(s)| == |s|
  {
    if s != [] { SplitSizes(s[1..]); }
  }

  lemma FrontOrdered(x: Item, s: seq<Item>)
    requires Ordered(s) && s != [] && Before(x, s[0])
    ensures Ordered([x] + s)
  {
    var r := [x] + s;
    forall i, j | 0 <= i < j < |r| ensures !Before(r[j], r[i]) {
      if i == 0 { assert !Before(s[j - 1], s[0]) || j == 1; }
    }
  }

  lemma LaterOrdered(x: Item, s: seq<Item>, t: seq<Item>)
    requires Ordered(s) && s != [] && !Before(x, s[0])
    requires Ordered(t) && multiset(t) == multiset(s[1..]) + multiset{x}
    ensures Ordered([s[0]] + t)
  {
    forall j | 0 <= j < |t| ensures !Before(t[j], s[0]) {
      assert t[j] in multiset(t);
      if t[j] != x {
        assert t[j] in multiset(s[1..]);
        assert t[j] in s[1..];
      }
    }
    hide Before;
  }

  /** Insertion of one item into an ordered list, after every item it does not precede. */
  function Insert(x: Item, s: seq<Item>): (r: seq<Item>)
    requires Ordered(s)
    ensures Ordered(r)
    ensures multiset(r) == multiset(s) + multiset{x}
  {
    if s == [] then [x]
    else if Before(x, s[0]) then
      var r := [x] + s;
      FrontOrdered(x, s);
      r
    else
      assert Ordered(s[1..]);
      var t := Insert(x, s[1..]);
      assert s == [s[0]] + s[1..];
      LaterOrdered(x, s, t);
      [s[0]] + t
  }

  /** The waiting items in admission order. */
  function ByScore(items: seq<Item>): (r: seq<Item>)
    ensures Ordered(r)
    ensures forall i, j :: 0 <= i < j < |r| ==>
      r[i].score > r[j].score || (r[i].score == r[j].score && r[i].id <= r[j].id)
    ensures multiset(r) == multiset(items)
  {
    if items == [] then []
    else
      assert items == [items[0]] + items[1..];
      Insert(items[0], ByScore(items[1..]))
  }

  function Free(inFlight: int, plan: Plan): int {
    Max(0, plan.budget - inFlight)
  }

  /** What an admission must achieve, stated without the algorithm. */
  ghost predicate FairAdmission(waiting: seq<Item>, inFlight: int, plan: Plan, out: seq<Item>) {
    var order := ByScore(waiting);
    // Work-conserving: a free slot is left empty only when nobody waits, whatever is held back.
    && |out| == Min(Free(inFlight, plan), |waiting|)
    // Within each class the admitted items are exactly the first ones in admission order.
    && Urgents(out) <= Urgents(order)
    && Others(out) <= Others(order)
    // The held slots reach urgent items before anybody else can use them.
    && |Urgents(out)| >= Min(Free(inFlight, plan), Min(Held(plan), |Urgents(order)|))
    && multiset(out) <= multiset(waiting)
  }

  /** How far an admission loop has come after looking at the first i items of the order. */
  ghost predicate Progress(order: seq<Item>, i: int, out: seq<Item>, skipping: bool)
    requires 0 <= i <= |order|
  {
    && Urgents(out) == Urgents(order[..i])
    && Others(out) <= Others(order[..i])
    && (!skipping ==> Others(out) == Others(order[..i]))
    && multiset(out) <= multiset(order[..i])
  }

  lemma ProgressTake(order: seq<Item>, i: int, out: seq<Item>, skipping: bool)
    requires 0 <= i < |order| && Progress(order, i, out, skipping)
    requires order[i].urgent || !skipping
    ensures Progress(order, i + 1, out + [order[i]], skipping)
    ensures Urgents(out + [order[i]]) == Urgents(out) + (if order[i].urgent then [order[i]] else [])
  {
    assert order[..i + 1] == order[..i] + [order[i]];
    SplitAppend(order[..i], order[i]);
    SplitAppend(out, order[i]);
  }

  lemma ProgressSkip(order: seq<Item>, i: int, out: seq<Item>, skipping: bool)
    requires 0 <= i < |order| && Progress(order, i, out, skipping)
    requires !order[i].urgent
    ensures Progress(order, i + 1, out, true)
  {
    assert order[..i + 1] == order[..i] + [order[i]];
    SplitAppend(order[..i], order[i]);
  }

  lemma ProgressEnd(order: seq<Item>, i: int, out: seq<Item>, skipping: bool)
    requires 0 <= i <= |order| && Progress(order, i, out, skipping)
    ensures Urgents(out) <= Urgents(order) && Others(out) <= Others(order)
    ensures multiset(out) <= multiset(order)
    ensures |Urgents(order)| == |Urgents(out)| + |Urgents(order[i..])|
    ensures !skipping && i == |order| ==> |out| == |order|
  {
    assert order == order[..i] + order[i..];
    SplitConcat(order[..i], order[i..]);
    assert multiset(order) == multiset(order[..i]) + multiset(order[i..]);
    SplitSizes(out);
    SplitSizes(order);
  }

  lemma TailUrgents(order: seq<Item>, i: int)
    requires 0 <= i < |order|
    ensures |Urgents(order[i..])| == |Urgents(order[i + 1..])| + (if order[i].urgent then 1 else 0)
  {
    assert order[i..][1..] == order[i + 1..];
  }

  lemma SizeMonotone(a: seq<Item>, b: seq<Item>)
    requires multiset(a) <= multiset(b)
    ensures |a| <= |b|
  {
    var rest := multiset(b) - multiset(a);
    assert multiset(b) == multiset(a) + rest;
    assert |multiset(b)| == |multiset(a)| + |rest|;
    assert |multiset(a)| == |a| && |multiset(b)| == |b|;
  }

  lemma AdmissionDone(waiting: seq<Item>, inFlight: int, plan: Plan, i: int, out: seq<Item>, skipping: bool)
    requires plan.budget > inFlight
    requires 0 <= i <= |ByScore(waiting)| && Progress(ByScore(waiting), i, out, skipping)
    requires |out| <= Free(inFlight, plan)
    requires i < |ByScore(waiting)| ==> |out| == Free(inFlight, plan)
    requires skipping ==> Free(inFlight, plan) - |out| <= |Urgents(ByScore(waiting)[i..])|
    requires Free(inFlight, plan) - |out| + |Urgents(out)|
             >= Min(Free(inFlight, plan), Min(Held(plan), |Urgents(ByScore(waiting))|))
    ensures FairAdmission(waiting, inFlight, plan, out)
  {
    var order := ByScore(waiting);
    assert |order| == |waiting| by { assert |multiset(order)| == |multiset(waiting)|; }
    ProgressEnd(order, i, out, skipping);
    SizeMonotone(out, waiting);
    if i == |order| { assert order[i..] == []; }
    SplitSizes(out);
  }

  method CountUrgent(order: seq<Item>) returns (n: nat)
    ensures n == |Urgents(order)|
  {
    n := 0;
    for k := 0 to |order|
      invariant n == |Urgents(order[..k])|
    {
      assert order[..k + 1] == order[..k] + [order[k]];
      SplitAppend(order[..k], order[k]);
      if order[k].urgent { n := n + 1; }
    }
    assert order[..|order|] == order;
  }

  lemma NothingAdmitted(waiting: seq<Item>, inFlight: int, plan: Plan)
    requires plan.budget <= inFlight || waiting == []
    ensures FairAdmission(waiting, inFlight, plan, [])
  {
  }

  lemma AdmissionStarts(order: seq<Item>, inFlight: int, plan: Plan, reserved: int, floor: int)
    requires plan.budget > inFlight
    requires reserved == Held(plan)
    requires floor == Min(Free(inFlight, plan), Min(reserved, |Urgents(order)|))
    ensures Free(inFlight, plan) == plan.budget - inFlight
    ensures floor <= Free(inFlight, plan) && floor <= reserved && floor <= |Urgents(order)|
    ensures Progress(order, 0, [], false)
    ensures order[0..] == order && Urgents([]) == []
  {
  }

  lemma HeldSlots(plan: Plan)
    ensures Held(plan) == (var r := if plan.reserved > plan.budget - 1 then plan.budget - 1 else plan.reserved;
                           if r < 0 then 0 else r)
  {
  }

  lemma FairMeans(waiting: seq<Item>, inFlight: int, plan: Plan, out: seq<Item>)
    requires FairAdmission(waiting, inFlight, plan, out)
    ensures |out| == if plan.budget <= inFlight then 0
                     else if plan.budget - inFlight <= |waiting| then plan.budget - inFlight
                     else |waiting|
    ensures var urgent := |Urgents(out)|;
      urgent >= plan.reserved || urgent >= plan.budget - 1 || urgent >= plan.budget - inFlight
      || urgent == |Urgents(ByScore(waiting))|
  {
    hide Class, ByScore;
  }

  /** The loop fills every free slot it can. Fewer urgent runs are admitted than slots are reserved only where all
      that wait are admitted, or every free slot went to one, or every slot of the budget but one. */
  method Admit(waiting: seq<Item>, inFlight: int, plan: Plan) returns (out: seq<Item>)
    ensures FairAdmission(waiting, inFlight, plan, out)
    ensures |out| == if plan.budget <= inFlight then 0
                     else if plan.budget - inFlight <= |waiting| then plan.budget - inFlight
                     else |waiting|
    ensures var urgent := |Urgents(out)|;
      urgent >= plan.reserved || urgent >= plan.budget - 1 || urgent >= plan.budget - inFlight
      || urgent == |Urgents(ByScore(waiting))|
  {
    hide *;
    var free := plan.budget - inFlight;
    out := [];
    if free <= 0 || |waiting| == 0 {
      NothingAdmitted(waiting, inFlight, plan);
      FairMeans(waiting, inFlight, plan, out);
      return;
    }
    var reserved := plan.reserved;
    if reserved > plan.budget - 1 { reserved := plan.budget - 1; }
    if reserved < 0 { reserved := 0; }
    HeldSlots(plan);

    var sorted := ByScore(waiting);
    var urgentWaiting := CountUrgent(sorted);
    ghost var all, total := free, urgentWaiting;
    ghost var floor := Min(Free(inFlight, plan), Min(reserved, total));
    AdmissionStarts(sorted, inFlight, plan, reserved, floor);
    ghost var skipping := false;
    var i := 0;
    while i < |sorted| && free > 0
      invariant 0 <= i <= |sorted|
      invariant 0 <= free == all - |out|
      invariant Progress(sorted, i, out, skipping)
      invariant urgentWaiting == |Urgents(sorted[i..])|
      invariant urgentWaiting + |Urgents(out)| == total
      invariant skipping ==> free <= reserved && free <= urgentWaiting
      invariant free + |Urgents(out)| >= floor
    {
      var it := sorted[i];
      TailUrgents(sorted, i);
      var keep := reserved;
      if urgentWaiting < keep { keep := urgentWaiting; }
      if it.urgent || free > keep {
        ProgressTake(sorted, i, out, skipping);
        out := out + [it];
        free := free - 1;
        if it.urgent { urgentWaiting := urgentWaiting - 1; }
      } else {
        ProgressSkip(sorted, i, out, skipping);
        skipping := true;
      }
      i := i + 1;
    }
    AdmissionDone(waiting, inFlight, plan, i, out, skipping);
    FairMeans(waiting, inFlight, plan, out);
  }

  lemma {:induction false} ClassKeepsOrder(s: seq<Item>)
    requires Ordered(s)
    ensures Ordered(Urgents(s)) && Ordered(Others(s))
    ensures forall x :: x in Urgents(s) ==> x in s && x.urgent
    ensures forall x :: x in Others(s) ==> x in s && !x.urgent
  {
    if s != [] {
      var t := s[1..];
      assert Ordered(t);
      ClassKeepsOrder(t);
      assert s == [s[0]] + t;
      forall x | x in t ensures !Before(x, s[0]) {
        var k :| 0 <= k < |t| && t[k] == x;
        assert s[k + 1] == x;
      }
    }
  }

  /** Nobody is overtaken inside their class: every admitted run has a higher score than a run of the same class
      that was left out, or the same score and no higher id. */
  lemma NoOvertaking(waiting: seq<Item>, inFlight: int, plan: Plan, out: seq<Item>, i: int, j: int)
    requires FairAdmission(waiting, inFlight, plan, out)
    ensures var u := Urgents(ByScore(waiting));
      0 <= i < |Urgents(out)| <= j < |u| ==> 
        Urgents(out)[i] == u[i] && (u[i].score > u[j].score || (u[i].score == u[j].score && u[i].id <= u[j].id))
    ensures var o := Others(ByScore(waiting));
      0 <= i < |Others(out)| <= j < |o| ==> 
        Others(out)[i] == o[i] && (o[i].score > o[j].score || (o[i].score == o[j].score && o[i].id <= o[j].id))
  {
    ClassKeepsOrder(ByScore(waiting));
  }
}
