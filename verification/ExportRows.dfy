/** The whole export: a filter compiled to SQL and a check per row, run in keyset batches over the stored
    rows, shows exactly the rows the filter accepts, newest first. */
module ExportRows {
  import opened Options
  import opened Seqs
  import opened SqlLogic
  import opened ExportFilter
  import opened ExportCompile
  import opened ExportPlan
  import opened ExportWire
  import opened ExportScan
  import opened ExportScanExact
  import opened ExportScanMoving

  /** One export: the source and filter with their compiled form, the WHERE after further conditions and
      what those admit, the selected columns, the prices and newest sets looked up, and the key columns. */
  datatype Export = Export(src: Source, filter: Wire, c: Compiled, k: Check, where: Sql, args: seq<Value>,
                           admits: Row -> bool, names: seq<string>, lay: Layout, l: Lookup,
                           k1: Option<string>, id: string, size: Row -> nat)

  ghost predicate Ready(x: Export) {
    && SourceOk(x.src) && Plannable(x.src, x.filter) && CompiledTo(x.src, x.filter, false, x.c) && CheckOk(x.k, x.c)
    && (Asks(x.c.leaves) ==> LaidOut(x.names, x.lay))
    && |x.args| == Marks(x.where) && |x.c.args| == Marks(x.c.sql)
    && forall row :: Eval(x.where, x.args, row) == True <==> Eval(x.c.sql, x.c.args, row) == True && x.admits(row)
  }

  predicate RowFits(x: Export, row: Row) {
    RowOk(x.src, row, AnswersOf(row, x.l)) && (Asks(x.c.leaves) ==> Readable(row))
  }

  /** What the export is for. */
  ghost predicate Wanted(x: Export, row: Row) {
    WireSays(x.src, x.filter, row, AnswersOf(row, x.l), false) && x.admits(row)
  }

  /** The key columns as text, after the flag columns. */
  function KeyTexts(x: Export, row: Row): seq<string> {
    (if x.k1.Some? then [Cell(row, x.k1.value)] else []) + [Cell(row, x.id)]
  }

  /** One row through the query, its arguments bound flags first. */
  function Got(x: Export, row: Row): Option<seq<string>> {
    var all := x.k.flagArgs + x.args;
    if |all| == MarksAll(x.k.flagSel) + Marks(x.where)
    then RunRow(x.k.flagSel, x.where, all, Cells(row, x.names), KeyTexts(x, row), row)
    else None
  }

  /** The row as the scan sees it; a source with one key column has the same first key everywhere. */
  function RecOf(x: Export, row: Row): Rec {
    var got := Got(x, row);
    Rec(if x.k1.Some? then Column(row, x.k1.value) else Num(0), Column(row, x.id), x.size(row), got.Some?,
        got.Some? && Post(x.k, got.value, |x.names|, row.version, x.lay, x.l))
  }

  function Recs(x: Export, table: seq<Row>): (r: seq<Rec>)
    ensures |r| == |table| && forall i :: 0 <= i < |table| ==> r[i] == RecOf(x, table[i])
  {
    seq(|table|, i requires 0 <= i < |table| => RecOf(x, table[i]))
  }

  /** Query and check together keep a row exactly when the export is for it. */
  lemma RowDecided(x: Export, row: Row)
    requires Ready(x) && RowFits(x, row)
    ensures RecOf(x, row).keep && RecOf(x, row).accept <==> Wanted(x, row)
    ensures RecOf(x, row).keep <==> Eval(x.where, x.args, row) == True
  {
    hide SourceOk, Plannable, CompiledTo, CheckOk, Asks, LaidOut, RowOk, Readable, Eval, AnswersOf, WireSays, Post,
         Cells;
    SelectsExactly(x.src, x.filter, x.c, x.k, x.where, x.args, x.admits(row), row, x.names, KeyTexts(x, row), x.lay,
                   x.l);
    assert (x.k.flagArgs + x.args)[|x.k.flagArgs|..] == x.args;
  }

  // ---------- the query of a later batch ----------

  /** The WHERE of a batch that resumes after a row, with the key arguments last, keeps exactly the rows
      the scan still has ahead of it. */
  lemma ResumedQuery(x: Export, last: Row, row: Row, numeric: bool)
    requires Ready(x) && RowFits(x, row)
    requires Column(last, x.id) != Null && Column(row, x.id) != Null
    ensures var cur := CursorOf(RecOf(x, last), numeric); var resume := CursorSql(x.k1, x.id);
      var all := x.args + CursorArgs(x.k1, cur.k1, cur.id);
      && |all| == Marks(Join(true, [x.where, resume]))
      && (Eval(Join(true, [x.where, resume]), all, row) == True <==> Eligible(Some(cur), RecOf(x, row)))
  {
    var cur := CursorOf(RecOf(x, last), numeric);
    var resume, more := CursorSql(x.k1, x.id), CursorArgs(x.k1, cur.k1, cur.id);
    RowDecided(x, row);
    CursorMeaning(x.k1, x.id, cur.k1, cur.id, row);
    PairMarks(x.where, resume);
    assert (x.args + more)[..|x.args|] == x.args && (x.args + more)[|x.args|..] == more;
    hide Eval, CursorSql, CursorArgs, Got, Post, RowFits, Ready;
    PairEval(true, x.where, resume, x.args + more, row);
  }

  // ---------- the rows an export shows ----------

  /** v lists every wanted row once, newest first, and no other. */
  ghost predicate Shows(x: Export, table: seq<Row>, v: seq<Rec>) {
    && Descending(v)
    && (forall i :: 0 <= i < |table| && Wanted(x, table[i]) ==> RecOf(x, table[i]) in v)
    && forall r :: r in v ==> exists i :: 0 <= i < |table| && Wanted(x, table[i]) && r == RecOf(x, table[i])
  }

  lemma {:induction false} DescendingSame(a: seq<Rec>, b: seq<Rec>)
    requires Descending(a) && Descending(b) && forall r :: r in a <==> r in b
    ensures a == b
  {
    NoMembers(a);
    NoMembers(b);
    if a != [] {
      HeadSame(a, b);
      TailOf(a);
      TailOf(b);
      DescendingSame(a[1..], b[1..]);
    }
  }

  lemma HeadSame(a: seq<Rec>, b: seq<Rec>)
    requires a != [] && b != [] && Descending(a) && Descending(b) && forall r :: r in a <==> r in b
    ensures a[0] == b[0]
  {
    assert a[0] in b && b[0] in a;
    var i :| 0 <= i < |b| && b[i] == a[0];
    var j :| 0 <= j < |a| && a[j] == b[0];
    KeyOrder(a[0], b[0], a[0]);
  }

  lemma TailOf(a: seq<Rec>)
    requires a != [] && Descending(a)
    ensures Descending(a[1..]) && forall r :: r in a[1..] <==> r in a && r != a[0]
  {
    KeyOrder(a[0], a[0], a[0]);
    forall r | r in a[1..] ensures r != a[0] { var i :| 0 < i < |a| && a[i] == r; }
  }

  lemma ListingShows(x: Export, table: seq<Row>)
    requires Ready(x) && (forall i :: 0 <= i < |table| ==> RowFits(x, table[i])) && TableOk(Recs(x, table))
    ensures Shows(x, table, Accepted(Listing(Recs(x, table))))
    ensures forall v :: Shows(x, table, v) ==> v == Accepted(Listing(Recs(x, table)))
  {
    var recs := Recs(x, table);
    var all := Accepted(Listing(recs));
    forall i | 0 <= i < |table|
      ensures recs[i].keep && recs[i].accept <==> Wanted(x, table[i])
    {
      RowDecided(x, table[i]);
    }
    RemainingIn(recs, None);
    ListingDescends(recs, None);
    AcceptedIn(Listing(recs));
    AcceptedDescends(Listing(recs));
    hide Ready, Wanted, RecOf, RowFits, Accepted, Remaining, Listing, Descending, TableOk;
    forall i | 0 <= i < |table| && Wanted(x, table[i]) ensures RecOf(x, table[i]) in all { assert recs[i] in recs; }
    forall r | r in all ensures exists i :: 0 <= i < |table| && Wanted(x, table[i]) && r == RecOf(x, table[i]) {
      var i :| 0 <= i < |recs| && recs[i] == r;
      assert Wanted(x, table[i]);
    }
    forall v | Shows(x, table, v) ensures v == all { DescendingSame(v, all); }
  }

  /** The export theorem: for every source, filter, table, batch size and size cap, the rows visited are the
      wanted ones, each once, newest first, if and only if the scan is lossless. */
  lemma ExportsExactly(x: Export, table: seq<Row>, batch: nat, maxBytes: nat, numeric: bool)
    requires Ready(x) && batch >= 1
    requires (forall i :: 0 <= i < |table| ==> RowFits(x, table[i])) && TableOk(Recs(x, table))
    ensures Shows(x, table, ScanFrom([Recs(x, table)], None, batch, maxBytes, numeric))
            <==> Lossless(Recs(x, table), batch, maxBytes, numeric)
  {
    hide *;
    ListingShows(x, table);
    ScanExactly(Recs(x, table), batch, maxBytes, numeric);
  }

  /** In particular whenever the source has one key column, or no row lacks the first of two. */
  lemma KeyedExportsExactly(x: Export, table: seq<Row>, batch: nat, maxBytes: nat, numeric: bool)
    requires Ready(x) && batch >= 1
    requires (forall i :: 0 <= i < |table| ==> RowFits(x, table[i])) && TableOk(Recs(x, table))
    requires x.k1.Some? ==> forall i :: 0 <= i < |table| ==> Column(table[i], x.k1.value) != Null
    ensures Shows(x, table, ScanFrom([Recs(x, table)], None, batch, maxBytes, numeric))
  {
    var recs := Recs(x, table);
    forall r | r in recs ensures r.k1 != Null { var i :| 0 <= i < |recs| && recs[i] == r; }
    hide *;
    KeyedIsLossless(recs, batch, maxBytes, numeric);
    ExportsExactly(x, table, batch, maxBytes, numeric);
  }
}
