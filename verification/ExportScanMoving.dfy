/** Scanning while rows come and go between batches; and the counts and pages that must agree with the
    scan. */
module ExportScanMoving {
  import opened Options
  import opened Seqs
  import opened SqlLogic
  import opened ExportScan
  import opened ExportScanExact

  predicate AllOk(history: seq<seq<Rec>>) { history != [] && forall i :: 0 <= i < |history| ==> TableOk(history[i]) }

  /** The batch is the last one, or the row it ends on has a first key to resume from. */
  predicate EndsKeyed(table: seq<Rec>, cur: Option<Cursor>, batch: nat, maxBytes: nat) {
    var rows := Batch(table, cur, batch, maxBytes);
    Continues(table, cur, batch, maxBytes) && rows != [] ==> rows[|rows| - 1].k1 != Null
  }

  predicate Existed(history: seq<seq<Rec>>, r: Rec) { exists i :: 0 <= i < |history| && r in history[i] }

  predicate SameKey(a: Rec, b: Rec) { a.k1 == b.k1 && a.id == b.id }

  /** The table holds the key, matching. */
  predicate Holds(table: seq<Rec>, k: Rec) { exists r :: r in table && SameKey(r, k) && r.keep && r.accept }

  predicate Throughout(history: seq<seq<Rec>>, k: Rec) { forall i :: 0 <= i < |history| ==> Holds(history[i], k) }

  lemma LaterTables(history: seq<seq<Rec>>)
    requires AllOk(history)
    ensures AllOk(Later(history))
    ensures forall r :: Existed(Later(history), r) ==> Existed(history, r)
    ensures forall k :: Throughout(history, k) ==> Throughout(Later(history), k)
  {
    forall r | Existed(Later(history), r) ensures Existed(history, r) {
      var i :| 0 <= i < |Later(history)| && r in Later(history)[i];
      assert r in history[if |history| == 1 then i else i + 1];
    }
    forall k | Throughout(history, k) ensures Throughout(Later(history), k) {
      forall i | 0 <= i < |Later(history)| ensures Holds(Later(history)[i], k) {
        assert Holds(history[if |history| == 1 then i else i + 1], k);
      }
    }
  }

  /** What one batch of a keyed table visits: matching rows of the table after the cursor, in order. */
  lemma BatchVisits(table: seq<Rec>, cur: Option<Cursor>, batch: nat, maxBytes: nat)
    requires TableOk(table) && batch >= 1
    ensures var rows := Batch(table, cur, batch, maxBytes);
      && Descending(Accepted(rows))
      && (forall r :: r in rows ==> r in Remaining(table, cur) && r in table && Eligible(cur, r))
      && (forall r :: r in Accepted(rows) <==> r in rows && r.accept)
      && (rows != [] ==> forall r :: r in rows ==> r == rows[|rows| - 1] || KeyLess(rows[|rows| - 1], r))
  {
    var m, rows := Remaining(table, cur), Batch(table, cur, batch, maxBytes);
    BatchPrefix(table, cur, batch, maxBytes);
    ListingDescends(table, cur);
    RemainingIn(table, cur);
    hide *;
    PrefixFacts(m, |rows|);
    AcceptedDescends(rows);
    AcceptedIn(rows);
  }

  lemma AcceptedDescends(rows: seq<Rec>)
    requires Descending(rows)
    ensures Descending(Accepted(rows))
  {
    FilterDescends((r: Rec) => r.accept, rows);
  }

  lemma PrefixFacts(m: seq<Rec>, j: nat)
    requires Descending(m) && j <= |m|
    ensures Descending(m[..j]) && (forall r :: r in m[..j] ==> r in m)
    ensures j > 0 ==> forall r :: r in m[..j] ==> r == m[j - 1] || KeyLess(m[j - 1], r)
  {
    hide KeyLess;
    if j > 0 {
      forall r | r in m[..j] ensures r == m[j - 1] || KeyLess(m[j - 1], r) { var i :| 0 <= i < j && m[i] == r; }
    }
  }

  lemma {:induction false} FilterDescends(p: Rec -> bool, s: seq<Rec>)
    requires Descending(s)
    ensures Descending(Filter(p, s))
  {
    if s != [] {
      FilterDescends(p, s[1..]);
      FilterIn(p, s[1..]);
      forall x | x in s[1..] ensures KeyLess(x, s[0]) { var i :| 0 < i < |s| && s[i] == x; }
      if p(s[0]) {
        var r := Filter(p, s[1..]);
        forall j | 0 <= j < |r| ensures KeyLess(r[j], s[0]) { assert r[j] in r; }
      }
    }
  }

  lemma JoinDescending(a: seq<Rec>, b: seq<Rec>, last: Rec)
    requires Descending(a) && Descending(b)
    requires forall x :: x in a ==> x == last || KeyLess(last, x)
    requires forall y :: y in b ==> KeyLess(y, last)
    ensures Descending(a + b)
  {
    forall i, j | 0 <= i < j < |a + b| ensures KeyLess((a + b)[j], (a + b)[i]) {
      if i < |a| && j >= |a| {
        assert a[i] in a && b[j - |a|] in b;
        KeyOrder(b[j - |a|], last, a[i]);
      }
    }
  }

  /** Keys strictly descend, and every row existed, matched and lies after the cursor. */
  predicate Sound(history: seq<seq<Rec>>, cur: Option<Cursor>, v: seq<Rec>) {
    Descending(v) && forall r :: r in v ==> r.accept && Eligible(cur, r) && Existed(history, r)
  }

  lemma BatchSound(history: seq<seq<Rec>>, cur: Option<Cursor>, batch: nat, maxBytes: nat)
    requires AllOk(history) && batch >= 1
    ensures Sound(history, cur, Accepted(Batch(history[0], cur, batch, maxBytes)))
  {
    BatchVisits(history[0], cur, batch, maxBytes);
    var rows := Batch(history[0], cur, batch, maxBytes);
    hide Batch, Remaining, KeyLess, Eligible, Accepted;
    forall r | r in rows ensures Existed(history, r) { assert r in history[0]; }
  }

  lemma RestSound(history: seq<seq<Rec>>, cur: Option<Cursor>, last: Rec, numeric: bool, rest: seq<Rec>)
    requires AllOk(history) && Eligible(cur, last) && last.id != Null && last.k1 != Null
    requires Sound(Later(history), Some(CursorOf(last, numeric)), rest)
    ensures Sound(history, cur, rest) && forall y :: y in rest ==> KeyLess(y, last)
  {
    LaterTables(history);
    hide AllOk, Existed;
    forall y | y in rest ensures KeyLess(y, last) && Eligible(cur, y) && Existed(history, y) {
      AfterNext(cur, last, y, numeric);
    }
  }

  /** After the first batch every row read has a first key. */
  lemma LaterKeyed(table: seq<Rec>, c: Cursor, batch: nat, maxBytes: nat)
    requires TableOk(table) && batch >= 1
    ensures forall r :: r in Batch(table, Some(c), batch, maxBytes) ==> r.k1 != Null
    ensures EndsKeyed(table, Some(c), batch, maxBytes)
  {
    BatchVisits(table, Some(c), batch, maxBytes);
    var rows := Batch(table, Some(c), batch, maxBytes);
    hide Batch, Remaining, Accepted;
    if rows != [] { assert rows[|rows| - 1] in rows; }
  }

  /** A batch and what the scan visits after it, joined. */
  lemma JoinedSound(history: seq<seq<Rec>>, cur: Option<Cursor>, batch: nat, maxBytes: nat, numeric: bool,
                    rows: seq<Rec>, rest: seq<Rec>)
    requires AllOk(history) && batch >= 1 && EndsKeyed(history[0], cur, batch, maxBytes)
    requires Continues(history[0], cur, batch, maxBytes)
    requires rows == Batch(history[0], cur, batch, maxBytes) && rows != []
    requires Sound(Later(history), Some(CursorOf(rows[|rows| - 1], numeric)), rest)
    ensures Sound(history, cur, Accepted(rows) + rest)
  {
    FirstOk(history);
    hide *;
    var last := rows[|rows| - 1];
    LastFacts(history[0], cur, batch, maxBytes);
    RestSound(history, cur, last, numeric, rest);
    BatchSound(history, cur, batch, maxBytes);
    BatchVisits(history[0], cur, batch, maxBytes);
    JoinSound(history, cur, Accepted(rows), rest, last);
  }

  /** Safety under concurrent change: whatever is inserted, deleted or edited between batches, the keys
      visited strictly descend, so none is visited twice, and every visited row existed and matched. Rows
      may lack a first key as long as the scan does not resume from one. */
  lemma {:induction false} MovingScan(history: seq<seq<Rec>>, cur: Option<Cursor>, batch: nat, maxBytes: nat,
                                      numeric: bool)
    requires AllOk(history) && batch >= 1 && EndsKeyed(history[0], cur, batch, maxBytes)
    ensures Sound(history, cur, ScanFrom(history, cur, batch, maxBytes, numeric))
    decreases |history|, |Remaining(history[0], cur)|
  {
    FirstOk(history);
    LaterShorter(history);
    hide *;
    var rows := Batch(history[0], cur, batch, maxBytes);
    ScanUnfolds(history, cur, batch, maxBytes, numeric, rows);
    if Continues(history[0], cur, batch, maxBytes) {
      var last, next := rows[|rows| - 1], CursorOf(rows[|rows| - 1], numeric);
      RemainingShrinks(history[0], cur, last, numeric);
      LaterOk(history);
      LaterKeyed(Later(history)[0], next, batch, maxBytes);
      MovingScan(Later(history), Some(next), batch, maxBytes, numeric);
      JoinedSound(history, cur, batch, maxBytes, numeric, rows,
                  ScanFrom(Later(history), Some(next), batch, maxBytes, numeric));
    } else {
      BatchSound(history, cur, batch, maxBytes);
    }
  }

  lemma LaterOk(history: seq<seq<Rec>>)
    requires AllOk(history)
    ensures AllOk(Later(history)) && Later(history) != [] && TableOk(Later(history)[0])
  {
  }

  lemma FirstOk(history: seq<seq<Rec>>)
    requires AllOk(history)
    ensures history != [] && TableOk(history[0])
  {
  }

  lemma LaterShorter(history: seq<seq<Rec>>)
    requires history != []
    ensures if |history| == 1 then Later(history) == history else |Later(history)| < |history|
  {
  }

  lemma LastFacts(table: seq<Rec>, cur: Option<Cursor>, batch: nat, maxBytes: nat)
    requires TableOk(table) && EndsKeyed(table, cur, batch, maxBytes) && Continues(table, cur, batch, maxBytes)
    requires Batch(table, cur, batch, maxBytes) != [] && batch >= 1
    ensures var rows := Batch(table, cur, batch, maxBytes); var last := rows[|rows| - 1];
      last.id != Null && last.k1 != Null && Eligible(cur, last)
  {
    BatchVisits(table, cur, batch, maxBytes);
    hide Batch, Remaining, Accepted, Continues, Eligible;
    var rows := Batch(table, cur, batch, maxBytes);
    assert rows[|rows| - 1] in rows;
  }

  lemma JoinSound(history: seq<seq<Rec>>, cur: Option<Cursor>, a: seq<Rec>, b: seq<Rec>, last: Rec)
    requires Sound(history, cur, a) && Sound(history, cur, b)
    requires forall x :: x in a ==> x == last || KeyLess(last, x)
    requires forall y :: y in b ==> KeyLess(y, last)
    ensures Sound(history, cur, a + b)
  {
    JoinDescending(a, b, last);
    hide KeyLess, Eligible, Existed;
  }

  lemma DescendingOnce(s: seq<Rec>, i: nat, j: nat)
    requires Descending(s) && i < |s| && j < |s| && SameKey(s[i], s[j])
    ensures i == j
  {
    KeyOrder(s[i], s[i], s[i]);
  }

  lemma {:induction false} PresentIsFound(history: seq<seq<Rec>>, cur: Option<Cursor>, batch: nat, maxBytes: nat,
                                          numeric: bool, k: Rec)
    requires AllOk(history) && batch >= 1 && Throughout(history, k) && k.k1 != Null
    requires cur.Some? ==> After(cur.value, k)
    ensures exists r :: r in ScanFrom(history, cur, batch, maxBytes, numeric) && SameKey(r, k)
    decreases |history|, |Remaining(history[0], cur)|
  {
    var table := history[0];
    var rows := Batch(table, cur, batch, maxBytes);
    assert Holds(table, k);
    var r :| r in table && SameKey(r, k) && r.keep && r.accept;
    ScanUnfolds(history, cur, batch, maxBytes, numeric, rows);
    BatchVisits(table, cur, batch, maxBytes);
    if r in rows {
      assert r in Accepted(rows) && r in ScanFrom(history, cur, batch, maxBytes, numeric);
    } else {
      NotYetRead(table, cur, batch, maxBytes, numeric, r);
      var last := rows[|rows| - 1];
      RemainingShrinks(table, cur, last, numeric);
      LaterTables(history);
      PresentIsFound(Later(history), Some(CursorOf(last, numeric)), batch, maxBytes, numeric, k);
      var next := Some(CursorOf(last, numeric));
      var v :| v in ScanFrom(Later(history), next, batch, maxBytes, numeric) && SameKey(v, k);
      assert v in ScanFrom(history, cur, batch, maxBytes, numeric);
    }
  }

  lemma DescendingHolds(s: seq<Rec>, k: Rec)
    requires Descending(s)
    ensures forall i, j :: 0 <= i < |s| && 0 <= j < |s| && SameKey(s[i], k) && SameKey(s[j], k) ==> i == j
  {
    forall i, j | 0 <= i < |s| && 0 <= j < |s| && SameKey(s[i], k) && SameKey(s[j], k) ensures i == j {
      DescendingOnce(s, i, j);
    }
  }

  /** Completeness under concurrent change: a key that matches in every table the scan finds is visited, and
      exactly once unless the scan resumes from a row without a first key. */
  lemma PresentIsVisited(history: seq<seq<Rec>>, batch: nat, maxBytes: nat, numeric: bool, k: Rec)
    requires AllOk(history) && batch >= 1 && Throughout(history, k) && k.k1 != Null
    ensures exists r :: r in ScanFrom(history, None, batch, maxBytes, numeric) && SameKey(r, k)
    ensures EndsKeyed(history[0], None, batch, maxBytes) ==> (
      var s := ScanFrom(history, None, batch, maxBytes, numeric);
      forall i, j :: 0 <= i < |s| && 0 <= j < |s| && SameKey(s[i], k) && SameKey(s[j], k) ==> i == j)
  {
    PresentIsFound(history, None, batch, maxBytes, numeric, k);
    if EndsKeyed(history[0], None, batch, maxBytes) {
      MovingScan(history, None, batch, maxBytes, numeric);
      hide AllOk, Throughout, ScanFrom, Descending, SameKey, EndsKeyed;
      DescendingHolds(ScanFrom(history, None, batch, maxBytes, numeric), k);
    }
  }

  /** Whatever keys are missing, the scan is its first batch and a rest, each descending and made of rows
      that existed and matched, so no key is visited more than twice; rows without a first key are visited
      by the first batch or not at all. */
  lemma MovingAnyKeys(history: seq<seq<Rec>>, batch: nat, maxBytes: nat, numeric: bool) returns (rest: seq<Rec>)
    requires AllOk(history) && batch >= 1
    ensures var first := Accepted(Batch(history[0], None, batch, maxBytes));
      && ScanFrom(history, None, batch, maxBytes, numeric) == first + rest
      && Sound(history, None, first) && Sound(history, None, rest)
      && forall r :: r in rest ==> r.k1 != Null
  {
    rest := [];
    var rows := Batch(history[0], None, batch, maxBytes);
    BatchSound(history, None, batch, maxBytes);
    ScanUnfolds(history, None, batch, maxBytes, numeric, rows);
    if Continues(history[0], None, batch, maxBytes) {
      var next := CursorOf(rows[|rows| - 1], numeric);
      LaterTables(history);
      LaterKeyed(Later(history)[0], next, batch, maxBytes);
      MovingScan(Later(history), Some(next), batch, maxBytes, numeric);
      rest := ScanFrom(Later(history), Some(next), batch, maxBytes, numeric);
      hide Batch, ScanFrom, Continues, Later, KeyLess;
      RestIsSound(history, next, rest);
    } else {
      assert Accepted(rows) + rest == Accepted(rows);
    }
  }

  lemma RestIsSound(history: seq<seq<Rec>>, c: Cursor, rest: seq<Rec>)
    requires AllOk(history) && Sound(Later(history), Some(c), rest)
    ensures Sound(history, None, rest) && forall r :: r in rest ==> r.k1 != Null
  {
    LaterTables(history);
    hide AllOk, Existed, Descending;
  }

  /** A row with an empty first key and one without any, in one batch: the scan resumes as if after an empty
      key and visits the first row again. */
  lemma MissingKeyRepeats()
    ensures var table := [Rec(Text(""), Num(1), 0, true, true), Rec(Null, Num(2), 0, true, true)];
      && TableOk(table) && !EndsKeyed(table, None, 2, 0)
      && ScanFrom([table], None, 2, 0, false) == table + [table[0]]
  {
    var empty, missing := Rec(Text(""), Num(1), 0, true, true), Rec(Null, Num(2), 0, true, true);
    var table, next := [empty, missing], CursorOf(missing, false);
    FilterAll(EligibleFrom(None), table);
    assert [missing][1..] == [] && table[1..] == [missing] && [empty][1..] == [];
    assert Sort([]) == [] && Sort([missing]) == [missing];
    assert KeyLess(missing, empty) && Insert(empty, [missing]) == table;
    assert Remaining(table, None) == table && Batch(table, None, 2, 0) == table;
    assert After(next, empty) && !After(next, missing);
    assert Filter(EligibleFrom(Some(next)), [missing]) == Filter(EligibleFrom(Some(next)), []);
    assert Filter(EligibleFrom(Some(next)), table) == [empty] + [];
    assert Remaining(table, Some(next)) == [empty];
    StaticScan(table, 2, 0, false);
    FilterAll((r: Rec) => r.accept, table);
    FilterAll((r: Rec) => r.accept, [empty]);
  }

  lemma NotYetRead(table: seq<Rec>, cur: Option<Cursor>, batch: nat, maxBytes: nat, numeric: bool, r: Rec)
    requires TableOk(table) && batch >= 1 && r in table && Eligible(cur, r) && r.k1 != Null
    requires r !in Batch(table, cur, batch, maxBytes)
    ensures Continues(table, cur, batch, maxBytes)
    ensures var rows := Batch(table, cur, batch, maxBytes);
      rows != [] && rows[|rows| - 1] in Remaining(table, cur) && After(CursorOf(rows[|rows| - 1], numeric), r)
  {
    var m, rows := Remaining(table, cur), Batch(table, cur, batch, maxBytes);
    BatchPrefix(table, cur, batch, maxBytes);
    RemainingIn(table, cur);
    ListingDescends(table, cur);
    var i :| 0 <= i < |m| && m[i] == r;
    assert forall q :: 0 <= q < |rows| ==> m[q] == rows[q] && rows[q] in rows;
    assert KeyLess(m[i], m[|rows| - 1]);
    assert m[|rows| - 1] in m;
    AfterIsBelow(m[|rows| - 1], r, numeric);
  }

  // ---------- counts and pages ----------

  function Slice(s: seq<Rec>, offset: nat, limit: nat): seq<Rec> {
    if |s| <= offset then [] else Take(s[offset..], limit)
  }

  /** Without a derived condition the per-row check accepts whatever the WHERE keeps. */
  predicate PlainTable(table: seq<Rec>) { forall r :: r in table && r.keep ==> r.accept }

  lemma PlainAccepts(table: seq<Rec>)
    requires PlainTable(table)
    ensures Accepted(Listing(table)) == Listing(table)
  {
    RemainingIn(table, None);
    FilterAll((r: Rec) => r.accept, Listing(table));
  }

  /** The count shown for a filter: one COUNT when SQL can answer, otherwise a scan. */
  method Count(table: seq<Rec>, derived: bool, batch: nat, maxBytes: nat, numeric: bool) returns (n: nat)
    requires TableOk(table) && batch >= 1 && (!derived ==> PlainTable(table))
    ensures n == if derived then |ScanFrom([table], None, batch, maxBytes, numeric)| else |Accepted(Listing(table))|
    ensures Lossless(table, batch, maxBytes, numeric) ==>
      n == |ScanFrom([table], None, batch, maxBytes, numeric)| == |Accepted(Listing(table))|
  {
    ScanExactly(table, batch, maxBytes, numeric);
    if !derived {
      PlainAccepts(table);
      RemainingIn(table, None);
      return |Filter(EligibleFrom(None), table)|;
    }
    var all := Scan([table], batch, maxBytes, numeric, None);
    n := |all|;
  }

  /** For a plain filter over the two rows without a first key one COUNT answers 2, and the export of the
      same filter, in batches of one, has one row. */
  lemma PlainCountDiffers()
    ensures TableOk(UNKEYED) && PlainTable(UNKEYED)
    ensures |Accepted(Listing(UNKEYED))| == 2 && |ScanFrom([UNKEYED], None, 1, 0, false)| == 1
  {
    MissingKeyLost();
  }

  /** One preview page: OFFSET and LIMIT when SQL can answer, otherwise a scan that skips and stops
      collecting. */
  method Page(table: seq<Rec>, derived: bool, offset: nat, limit: nat, batch: nat, maxBytes: nat, numeric: bool)
    returns (rows: seq<Rec>)
    requires TableOk(table) && batch >= 1 && (!derived ==> PlainTable(table))
    ensures var scanned, listed := ScanFrom([table], None, batch, maxBytes, numeric), Accepted(Listing(table));
      var all := if derived then scanned else listed;
      && (if |all| <= offset then rows == []
          else if |all| - offset <= limit then rows == all[offset..]
          else rows == all[offset..offset + limit])
      && (Lossless(table, batch, maxBytes, numeric) ==> scanned == listed)
  {
    ScanExactly(table, batch, maxBytes, numeric);
    if !derived {
      PlainAccepts(table);
      return Slice(Remaining(table, None), offset, limit);
    }
    var all := Scan([table], batch, maxBytes, numeric, None);
    rows := Collect(all, offset, limit);
  }

  method Collect(all: seq<Rec>, offset: nat, limit: nat) returns (rows: seq<Rec>)
    ensures rows == Slice(all, offset, limit)
  {
    rows := [];
    var skipped, i := 0, 0;
    while i < |all|
      invariant 0 <= i <= |all|
      invariant skipped == if i < offset then i else offset
      invariant rows == Slice(all[..i], offset, limit)
    {
      SliceNext(all, i, offset, limit);
      if skipped < offset {
        skipped := skipped + 1;
      } else if |rows| < limit {
        rows := rows + [all[i]];
      }
      i := i + 1;
    }
    assert all[..i] == all;
  }

  lemma SliceNext(all: seq<Rec>, i: nat, offset: nat, limit: nat)
    requires i < |all|
    ensures Slice(all[..i + 1], offset, limit)
            == Slice(all[..i], offset, limit)
               + if i < offset || |Slice(all[..i], offset, limit)| >= limit then [] else [all[i]]
  {
    var a, b := all[..i], all[..i + 1];
    assert b == a + [all[i]];
    if offset <= i {
      assert b[offset..] == a[offset..] + [all[i]];
    }
  }
}
