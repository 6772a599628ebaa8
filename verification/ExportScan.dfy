/** Reading a filtered source in keyset batches: no transaction spans the batches, each resumes strictly
    below the last key read, and a batch may end early by size. */
module ExportScan {
  import opened Options
  import opened Seqs
  import opened SqlLogic
  import TextOrder

  /** A stored row as the scan sees it. keep: the WHERE keeps it; accept: the check per row accepts it
      (always, when the filter has no derived condition). size: bytes of text read. */
  datatype Rec = Rec(k1: Value, id: Value, size: nat, keep: bool, accept: bool)

  datatype Cursor = Cursor(k1: Value, id: Value)

  // ---------- the order of keys ----------

  /** A missing value sorts below every other. */
  predicate ValueLess(a: Value, b: Value) { (a == Null && b != Null) || Below(a, b) }

  predicate KeyLess(a: Rec, b: Rec) {
    ValueLess(a.k1, b.k1) || (a.k1 == b.k1 && ValueLess(a.id, b.id))
  }

  lemma ValueOrder(a: Value, b: Value, c: Value)
    ensures !ValueLess(a, a)
    ensures ValueLess(a, b) && ValueLess(b, c) ==> ValueLess(a, c)
    ensures a == b || ValueLess(a, b) || ValueLess(b, a)
  {
    if a.Text? { TextOrder.Irreflexive(a.s); }
    if a.Text? && b.Text? { TextOrder.Total(a.s, b.s); }
    if a.Text? && b.Text? && c.Text? && ValueLess(a, b) && ValueLess(b, c) { TextOrder.Transitive(a.s, b.s, c.s); }
  }

  lemma KeyOrder(a: Rec, b: Rec, c: Rec)
    ensures !KeyLess(a, a)
    ensures KeyLess(a, b) && KeyLess(b, c) ==> KeyLess(a, c)
    ensures a.id != b.id ==> KeyLess(a, b) || KeyLess(b, a)
  {
    ValueOrder(a.k1, b.k1, c.k1);
    ValueOrder(a.id, b.id, c.id);
  }

  // ---------- lists of rows ----------

  function Accepted(s: seq<Rec>): seq<Rec> { Filter((r: Rec) => r.accept, s) }
  function NonNull(s: seq<Rec>): seq<Rec> { Filter((r: Rec) => r.k1 != Null, s) }

  predicate Descending(s: seq<Rec>) { forall i, j :: 0 <= i < j < |s| ==> KeyLess(s[j], s[i]) }

  /** Ids are primary keys. */
  predicate TableOk(s: seq<Rec>) {
    (forall i :: 0 <= i < |s| ==> s[i].id != Null) && forall i, j :: 0 <= i < j < |s| ==> s[i].id != s[j].id
  }

  function Insert(x: Rec, s: seq<Rec>): seq<Rec> {
    if s == [] || KeyLess(s[0], x) then [x] + s else [s[0]] + Insert(x, s[1..])
  }

  lemma {:induction false} InsertIn(x: Rec, s: seq<Rec>)
    ensures |Insert(x, s)| == |s| + 1
    ensures forall y :: y in Insert(x, s) <==> y == x || y in s
  {
    if s != [] && !KeyLess(s[0], x) { InsertIn(x, s[1..]); }
  }

  /** ORDER BY first key, id, descending. */
  function Sort(s: seq<Rec>): seq<Rec> {
    if s == [] then [] else Insert(s[0], Sort(s[1..]))
  }

  lemma {:induction false} SortIn(s: seq<Rec>)
    ensures |Sort(s)| == |s|
    ensures forall y :: y in Sort(s) <==> y in s
  {
    if s != [] {
      SortIn(s[1..]);
      InsertIn(s[0], Sort(s[1..]));
    }
  }

  lemma {:induction false} InsertDescends(x: Rec, s: seq<Rec>)
    requires Descending(s) && forall y :: y in s ==> y.id != x.id
    ensures Descending(Insert(x, s))
  {
    if s != [] {
      KeyOrder(x, s[0], x);
      assert s[0] in s;
      if KeyLess(s[0], x) {
        forall j | 0 <= j < |s| ensures KeyLess(s[j], x) { KeyOrder(s[j], s[0], x); }
      } else {
        assert forall y :: y in s[1..] ==> y in s;
        InsertDescends(x, s[1..]);
        InsertIn(x, s[1..]);
        var r := Insert(x, s[1..]);
        forall j | 0 <= j < |r| ensures KeyLess(r[j], s[0]) { assert r[j] == x || r[j] in s[1..]; }
      }
    }
  }

  lemma {:induction false} SortDescends(s: seq<Rec>)
    requires TableOk(s)
    ensures Descending(Sort(s))
  {
    if s != [] {
      SortDescends(s[1..]);
      SortIn(s[1..]);
      forall y | y in s[1..] ensures y.id != s[0].id { var j :| 0 <= j < |s| - 1 && s[1..][j] == y; }
      InsertDescends(s[0], Sort(s[1..]));
    }
  }

  lemma {:induction false} FilterInsert(p: Rec -> bool, x: Rec, s: seq<Rec>)
    requires Descending(s)
    ensures Filter(p, Insert(x, s)) == if p(x) then Insert(x, Filter(p, s)) else Filter(p, s)
  {
    if s != [] && !KeyLess(s[0], x) {
      FilterInsert(p, x, s[1..]);
      assert Insert(x, s)[0] == s[0] && Insert(x, s)[1..] == Insert(x, s[1..]);
    } else {
      assert Insert(x, s) == [x] + s && ([x] + s)[1..] == s;
      FilterIn(p, s);
      if Filter(p, s) != [] {
        var y := Filter(p, s)[0];
        assert y in Filter(p, s);
        BelowHead(x, s, y);
      }
    }
  }

  lemma BelowHead(x: Rec, s: seq<Rec>, y: Rec)
    requires Descending(s) && y in s && KeyLess(s[0], x)
    ensures KeyLess(y, x)
  {
    var i :| 0 <= i < |s| && s[i] == y;
    KeyOrder(y, s[0], x);
  }

  lemma {:induction false} FilterSort(p: Rec -> bool, s: seq<Rec>)
    requires TableOk(s)
    ensures Sort(Filter(p, s)) == Filter(p, Sort(s))
  {
    if s != [] {
      FilterSort(p, s[1..]);
      SortDescends(s[1..]);
      FilterInsert(p, s[0], Sort(s[1..]));
    }
  }

  lemma {:induction false} FilterTable(p: Rec -> bool, s: seq<Rec>)
    requires TableOk(s)
    ensures TableOk(Filter(p, s))
  {
    if s != [] {
      FilterTable(p, s[1..]);
      FilterIn(p, s[1..]);
      forall y | y in s[1..] ensures y.id != s[0].id { var j :| 0 <= j < |s| - 1 && s[1..][j] == y; }
    }
  }

  // ---------- one batch ----------

  /** The cursor is read back from the row's text: a missing first key becomes the empty text, or zero
      where the key is a number. */
  function CursorOf(r: Rec, numeric: bool): Cursor {
    Cursor(if r.k1 != Null then r.k1 else if numeric then Num(0) else Text(""), r.id)
  }

  /** The resuming condition; a row without a first key never satisfies it. */
  predicate After(cur: Cursor, r: Rec) {
    r.k1 != Null && (Below(r.k1, cur.k1) || (r.k1 == cur.k1 && Below(r.id, cur.id)))
  }

  predicate Eligible(cur: Option<Cursor>, r: Rec) { r.keep && (cur.Some? ==> After(cur.value, r)) }

  function EligibleFrom(cur: Option<Cursor>): Rec -> bool { (r: Rec) => Eligible(cur, r) }

  /** What remains to be read, in the order it will be read. */
  function Remaining(table: seq<Rec>, cur: Option<Cursor>): seq<Rec> {
    Sort(Filter(EligibleFrom(cur), table))
  }

  lemma RemainingIn(table: seq<Rec>, cur: Option<Cursor>)
    ensures |Remaining(table, cur)| == |Filter(EligibleFrom(cur), table)|
    ensures forall r :: r in Remaining(table, cur) <==> r in table && Eligible(cur, r)
  {
    FilterIn(EligibleFrom(cur), table);
    SortIn(Filter(EligibleFrom(cur), table));
  }

  function Take(s: seq<Rec>, n: nat): seq<Rec> { if |s| <= n then s else s[..n] }

  /** How many rows of the answer are read before the size cap ends the batch. */
  function CutAt(rows: seq<Rec>, i: nat, size: nat, maxBytes: nat, limit: nat): (n: nat)
    requires i <= |rows|
    ensures i <= n <= |rows| && (i < |rows| ==> i < n)
    decreases |rows| - i
  {
    if i == |rows| then i
    else if maxBytes > 0 && size + rows[i].size >= maxBytes && i + 1 < limit then i + 1
    else CutAt(rows, i + 1, size + rows[i].size, maxBytes, limit)
  }

  /** Whether the last row read reached the cap before the batch was full. */
  predicate WasCut(rows: seq<Rec>, i: nat, size: nat, maxBytes: nat, limit: nat)
    requires i <= |rows|
    decreases |rows| - i
  {
    if i == |rows| then false
    else if maxBytes > 0 && size + rows[i].size >= maxBytes && i + 1 < limit then true
    else WasCut(rows, i + 1, size + rows[i].size, maxBytes, limit)
  }

  lemma {:induction false} UncutReadsAll(rows: seq<Rec>, i: nat, size: nat, maxBytes: nat, limit: nat)
    requires i <= |rows|
    ensures !WasCut(rows, i, size, maxBytes, limit) ==> CutAt(rows, i, size, maxBytes, limit) == |rows|
    decreases |rows| - i
  {
    if i < |rows| { UncutReadsAll(rows, i + 1, size + rows[i].size, maxBytes, limit); }
  }

  /** Bytes of text in a list of rows. */
  function Bytes(s: seq<Rec>): nat { if s == [] then 0 else Bytes(s[..|s| - 1]) + s[|s| - 1].size }

  /** A batch that ends early has just reached the size cap; below the row limit, all its rows but the last
      together stay under the cap, so one batch never holds more text than the cap and one more row. */
  method ReadBatch(rows: seq<Rec>, maxBytes: nat, limit: nat) returns (out: seq<Rec>, cut: bool)
    ensures out == rows[..CutAt(rows, 0, 0, maxBytes, limit)]
    ensures cut == WasCut(rows, 0, 0, maxBytes, limit)
    ensures rows != [] ==> out != []
    ensures cut ==> maxBytes > 0 && Bytes(out) >= maxBytes && |out| < limit
    ensures !cut ==> out == rows
    ensures maxBytes > 0 && 0 < |out| <= limit ==> Bytes(out[..|out| - 1]) < maxBytes
  {
    out, cut := [], false;
    var size: nat := 0;
    var i := 0;
    while i < |rows|
      invariant 0 <= i <= |rows| && out == rows[..i] && size == Bytes(out)
      invariant maxBytes > 0 && i < limit ==> size < maxBytes
      invariant maxBytes > 0 && 0 < i <= limit ==> Bytes(rows[..i - 1]) < maxBytes
      invariant CutAt(rows, i, size, maxBytes, limit) == CutAt(rows, 0, 0, maxBytes, limit)
      invariant WasCut(rows, i, size, maxBytes, limit) == WasCut(rows, 0, 0, maxBytes, limit)
    {
      assert rows[..i + 1][..i] == rows[..i];
      size := size + rows[i].size;
      out := out + [rows[i]];
      if maxBytes > 0 && size >= maxBytes && |out| < limit {
        cut := true;
        return;
      }
      i := i + 1;
    }
  }

  /** The rows one batch reads, and whether another batch follows. */
  function Batch(table: seq<Rec>, cur: Option<Cursor>, batch: nat, maxBytes: nat): seq<Rec> {
    var rows := Take(Remaining(table, cur), batch);
    rows[..CutAt(rows, 0, 0, maxBytes, batch)]
  }

  predicate Continues(table: seq<Rec>, cur: Option<Cursor>, batch: nat, maxBytes: nat) {
    |Batch(table, cur, batch, maxBytes)| >= batch || WasCut(Take(Remaining(table, cur), batch), 0, 0, maxBytes, batch)
  }

  lemma BatchPrefix(table: seq<Rec>, cur: Option<Cursor>, batch: nat, maxBytes: nat)
    requires batch >= 1
    ensures var m, rows := Remaining(table, cur), Batch(table, cur, batch, maxBytes);
      && |rows| <= |m| && rows == m[..|rows|]
      && (m != [] ==> rows != [])
      && (!Continues(table, cur, batch, maxBytes) ==> rows == m)
      && (rows == [] ==> !Continues(table, cur, batch, maxBytes))
  {
    var rows := Take(Remaining(table, cur), batch);
    UncutReadsAll(rows, 0, 0, maxBytes, batch);
  }

  // ---------- moving on ----------

  lemma AfterNext(cur: Option<Cursor>, r: Rec, x: Rec, numeric: bool)
    requires Eligible(cur, r) && After(CursorOf(r, numeric), x)
    ensures cur.Some? ==> After(cur.value, x)
  {
    if cur.Some? {
      var c := Rec(cur.value.k1, cur.value.id, 0, true, true);
      ValueOrder(x.k1, r.k1, c.k1);
      ValueOrder(x.id, r.id, c.id);
    }
  }

  lemma NotAfterSelf(r: Rec, numeric: bool)
    ensures !After(CursorOf(r, numeric), r)
  {
    ValueOrder(r.k1, r.k1, r.k1);
    ValueOrder(r.id, r.id, r.id);
  }

  lemma {:induction false} FilterFewer(p: Rec -> bool, q: Rec -> bool, s: seq<Rec>, x: Rec)
    requires forall y :: y in s && p(y) ==> q(y)
    requires x in s ==> q(x) && !p(x)
    ensures |Filter(p, s)| <= |Filter(q, s)|
    ensures x in s ==> |Filter(p, s)| < |Filter(q, s)|
  {
    if s != [] { FilterFewer(p, q, s[1..], x); }
  }

  /** Every batch that reads a row leaves fewer rows to read. */
  lemma RemainingShrinks(table: seq<Rec>, cur: Option<Cursor>, r: Rec, numeric: bool)
    requires r in Remaining(table, cur)
    ensures |Remaining(table, Some(CursorOf(r, numeric)))| < |Remaining(table, cur)|
  {
    var next := Some(CursorOf(r, numeric));
    RemainingIn(table, cur);
    RemainingIn(table, next);
    forall y | y in table && Eligible(next, y) ensures Eligible(cur, y) { AfterNext(cur, r, y, numeric); }
    NotAfterSelf(r, numeric);
    FilterFewer(EligibleFrom(next), EligibleFrom(cur), table, r);
  }

  // ---------- the whole scan ----------

  /** The tables as successive batches find them; after the last one the table no longer changes. */
  function Later(history: seq<seq<Rec>>): (r: seq<seq<Rec>>)
    requires history != []
    ensures r != []
  {
    if |history| == 1 then history else history[1..]
  }

  function NextCursor(rows: seq<Rec>, cur: Option<Cursor>, numeric: bool): Option<Cursor> {
    if rows == [] then cur else Some(CursorOf(rows[|rows| - 1], numeric))
  }

  /** The rows visited from a cursor on. */
  function ScanFrom(history: seq<seq<Rec>>, cur: Option<Cursor>, batch: nat, maxBytes: nat, numeric: bool): seq<Rec>
    requires history != [] && batch >= 1
    decreases |history|, |Remaining(history[0], cur)|
  {
    var rows := Batch(history[0], cur, batch, maxBytes);
    BatchPrefix(history[0], cur, batch, maxBytes);
    if !Continues(history[0], cur, batch, maxBytes) then Accepted(rows)
    else
      RemainingShrinks(history[0], cur, rows[|rows| - 1], numeric);
      Accepted(rows) + ScanFrom(Later(history), NextCursor(rows, cur, numeric), batch, maxBytes, numeric)
  }

  /** Walks the source batch by batch and visits the accepted rows in order: all of them, or as many as the cap a
      reader's job was charged for. A cap of zero is none. */
  method Scan(history: seq<seq<Rec>>, batch: nat, maxBytes: nat, numeric: bool, cap: Option<nat>)
    returns (visited: seq<Rec>)
    requires history != [] && batch >= 1
    ensures visited <= ScanFrom(history, None, batch, maxBytes, numeric)
    ensures cap.Some? && cap.value > 0 ==> |visited| <= cap.value
    ensures visited == ScanFrom(history, None, batch, maxBytes, numeric)
            || (cap.Some? && 0 < cap.value == |visited| < |ScanFrom(history, None, batch, maxBytes, numeric)|)
  {
    visited := [];
    var cur: Option<Cursor> := None;
    var h := history;
    ghost var all := ScanFrom(history, None, batch, maxBytes, numeric);
    hide *;
    while true
      invariant h != []
      invariant visited + ScanFrom(h, cur, batch, maxBytes, numeric) == all
      invariant cap.Some? && cap.value > 0 ==> |visited| <= cap.value
      decreases |h|, |Remaining(h[0], cur)|
    {
      var rows, more := NextBatch(h[0], cur, batch, maxBytes);
      ScanMove(visited, h, cur, batch, maxBytes, numeric, all, rows);
      var stopped;
      visited, stopped := Visit(rows, visited, cap);
      if stopped || !more { return; }
      cur := Some(CursorOf(rows[|rows| - 1], numeric));
      h := Later(h);
    }
  }

  /** One query and the rows kept of its answer: no more than asked for, the first of what remains, and another
      batch follows a full one or one that ended at the size cap. */
  method NextBatch(table: seq<Rec>, cur: Option<Cursor>, batch: nat, maxBytes: nat) returns (rows: seq<Rec>, more: bool)
    ensures rows <= Remaining(table, cur) && |rows| <= batch
    ensures more ==> |rows| == batch || (maxBytes > 0 && Bytes(rows) >= maxBytes)
    ensures !more ==> rows == Remaining(table, cur) && |rows| < batch
    ensures rows == Batch(table, cur, batch, maxBytes) && more == Continues(table, cur, batch, maxBytes)
  {
    var cut;
    rows, cut := ReadBatch(Take(Remaining(table, cur), batch), maxBytes, batch);
    more := !(|rows| < batch && !cut);
  }

  lemma ScanUnfolds(h: seq<seq<Rec>>, cur: Option<Cursor>, batch: nat, maxBytes: nat, numeric: bool, rows: seq<Rec>)
    requires h != [] && batch >= 1 && rows == Batch(h[0], cur, batch, maxBytes)
    ensures !Continues(h[0], cur, batch, maxBytes) ==> ScanFrom(h, cur, batch, maxBytes, numeric) == Accepted(rows)
    ensures Continues(h[0], cur, batch, maxBytes) ==>
      && rows != [] && rows[|rows| - 1] in Remaining(h[0], cur)
      && ScanFrom(h, cur, batch, maxBytes, numeric)
         == Accepted(rows) + ScanFrom(Later(h), Some(CursorOf(rows[|rows| - 1], numeric)), batch, maxBytes, numeric)
  {
    BatchPrefix(h[0], cur, batch, maxBytes);
    hide Batch, Continues, Remaining, Accepted, CursorOf;
  }

  /** One batch moves its accepted rows from what is ahead to what has been visited. */
  lemma ScanMove(visited: seq<Rec>, h: seq<seq<Rec>>, cur: Option<Cursor>, batch: nat, maxBytes: nat, numeric: bool,
                 all: seq<Rec>, rows: seq<Rec>)
    requires h != [] && batch >= 1 && visited + ScanFrom(h, cur, batch, maxBytes, numeric) == all
    requires rows == Batch(h[0], cur, batch, maxBytes)
    ensures visited + Accepted(rows) <= all
    ensures !Continues(h[0], cur, batch, maxBytes) ==> visited + Accepted(rows) == all
    ensures Continues(h[0], cur, batch, maxBytes) ==>
      && rows != []
      && (|h| == 1 ==> |Remaining(h[0], Some(CursorOf(rows[|rows| - 1], numeric)))| < |Remaining(h[0], cur)|)
      && visited + Accepted(rows)
         + ScanFrom(Later(h), Some(CursorOf(rows[|rows| - 1], numeric)), batch, maxBytes, numeric) == all
    ensures if |h| == 1 then Later(h) == h else |Later(h)| < |h|
  {
    assert if |h| == 1 then Later(h) == h else |Later(h)| < |h|;
    hide *;
    ScanUnfolds(h, cur, batch, maxBytes, numeric, rows);
    if Continues(h[0], cur, batch, maxBytes) {
      RemainingShrinks(h[0], cur, rows[|rows| - 1], numeric);
      Assoc(visited, Accepted(rows),
            ScanFrom(Later(h), Some(CursorOf(rows[|rows| - 1], numeric)), batch, maxBytes, numeric));
    }
  }

  lemma Assoc(a: seq<Rec>, b: seq<Rec>, c: seq<Rec>)
    ensures a + (b + c) == a + b + c
    ensures a + b <= a + b + c
  {
  }

  /** Visits the accepted rows of one batch in order; a reader's job stops before the first row over its cap. */
  method Visit(rows: seq<Rec>, before: seq<Rec>, cap: Option<nat>) returns (visited: seq<Rec>, stopped: bool)
    requires cap.Some? && cap.value > 0 ==> |before| <= cap.value
    ensures before <= visited <= before + Accepted(rows)
    ensures cap.Some? && cap.value > 0 ==> |visited| <= cap.value
    ensures if stopped then cap.Some? && 0 < cap.value == |visited| < |before + Accepted(rows)|
            else visited == before + Accepted(rows)
  {
    visited, stopped := before, false;
    var i := 0;
    while i < |rows|
      invariant 0 <= i <= |rows|
      invariant visited == before + Accepted(rows[..i])
      invariant cap.Some? && cap.value > 0 ==> |visited| <= cap.value
    {
      AcceptNext(rows, i);
      if rows[i].accept {
        if cap.Some? && cap.value > 0 && |visited| >= cap.value {
          AcceptSplit(rows, i + 1);
          stopped := true;
          return;
        }
        visited := visited + [rows[i]];
      }
      i := i + 1;
    }
    assert rows[..i] == rows;
  }

  lemma AcceptSplit(rows: seq<Rec>, i: nat)
    requires i <= |rows|
    ensures Accepted(rows) == Accepted(rows[..i]) + Accepted(rows[i..])
  {
    assert rows == rows[..i] + rows[i..];
    FilterAppend((r: Rec) => r.accept, rows[..i], rows[i..]);
  }

  lemma AcceptNext(rows: seq<Rec>, i: nat)
    requires i < |rows|
    ensures Accepted(rows[..i + 1]) == Accepted(rows[..i]) + if rows[i].accept then [rows[i]] else []
  {
    hide Filter;
    assert rows[..i + 1] == rows[..i] + [rows[i]];
    FilterSnoc((r: Rec) => r.accept, rows[..i], rows[i]);
  }
}
