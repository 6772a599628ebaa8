/** The forecasts export: its latest-per-symbol marks are loaded from the table it lists, and the rows it shows
    are those the filter accepts with "latest" read as the newest candidate of the symbol. */
module ExportForecasts {
  import opened Options
  import opened SqlLogic
  import opened ExportFilter
  import opened ExportCompile
  import opened ExportPlan
  import opened ExportWire
  import opened ExportScan
  import opened ExportScanExact
  import opened ExportRows
  import L = ExportLatest

  function Rows(table: seq<Row>): set<Row> { set row | row in table }

  /** The two questions answered from the table itself rather than from loaded marks. */
  function TrueAnswers(x: Export, table: seq<Row>, base: Row -> bool, row: Row): Answers {
    Answers(AnswersOf(row, x.l).below, L.NewestCandidate(x.src, x.filter, Rows(table), base, row))
  }

  ghost predicate Accepts(x: Export, table: seq<Row>, base: Row -> bool, row: Row) {
    WireSays(x.src, x.filter, row, TrueAnswers(x, table, base, row), false) && x.admits(row)
  }

  /** v lists every accepted row once, newest first, and no other. */
  ghost predicate ShowsAccepted(x: Export, table: seq<Row>, base: Row -> bool, v: seq<Rec>) {
    && Descending(v)
    && (forall i :: 0 <= i < |table| && Accepts(x, table, base, table[i]) ==> RecOf(x, table[i]) in v)
    && forall r :: r in v ==> exists i ::
      0 <= i < |table| && Accepts(x, table, base, table[i]) && r == RecOf(x, table[i])
  }

  /** A table of forecasts: rows that fit, told apart by a numeric set id, which is also the last key. */
  predicate Forecasts(x: Export, table: seq<Row>) {
    && x.id == SET_ID
    && (forall i :: 0 <= i < |table| ==> RowFits(x, table[i]) && Column(table[i], SET_ID).Num?)
    && forall i, j :: 0 <= i < j < |table| ==> Column(table[i], SET_ID) != Column(table[j], SET_ID)
  }

  lemma ForecastTables(x: Export, table: seq<Row>)
    requires Forecasts(x, table)
    ensures TableOk(Recs(x, table)) && L.TableOk(x.src, Rows(table))
  {
    forall r, q | r in Rows(table) && q in Rows(table) && L.SetOf(r).id == L.SetOf(q).id ensures r == q {
      var i :| 0 <= i < |table| && table[i] == r;
      var j :| 0 <= j < |table| && table[j] == q;
    }
    forall r | r in Rows(table) ensures RowOk(x.src, r, Answers(false, false)) {
      var i :| 0 <= i < |table| && table[i] == r;
      assert RowFits(x, table[i]);
    }
  }

  /** The answers read from the loaded marks are the true ones. */
  lemma MarksAnswer(x: Export, nc: Compiled, table: seq<Row>, base: Row -> bool, groups: seq<L.Set>, i: nat)
    requires Ready(x) && L.NoVersion(x.src) && Forecasts(x, table) && i < |table|
    requires L.Loaded(x.src, x.filter, nc, Rows(table), base, groups, x.l)
    ensures AnswersOf(table[i], x.l) == TrueAnswers(x, table, base, table[i])
  {
    ForecastTables(x, table);
    assert table[i] in Rows(table);
    hide RowFits, AnswersOf, L.NewestCandidate, L.Loaded, L.TableOk;
    L.LatestExactly(x.src, x.filter, nc, Rows(table), base, groups, x.l, table[i]);
  }

  /** The forecasts theorem: for every filter, table, batch size and size cap, the rows shown are those the
      filter accepts, "latest" meaning the newest set of its symbol among the rows that match the rest of the
      filter, each once and newest first, if and only if the scan is lossless. */
  lemma ForecastsExactly(x: Export, nc: Compiled, table: seq<Row>, base: Row -> bool, groups: seq<L.Set>, batch: nat,
                         maxBytes: nat, numeric: bool)
    requires Ready(x) && L.NoVersion(x.src) && Forecasts(x, table) && batch >= 1
    requires L.Loaded(x.src, x.filter, nc, Rows(table), base, groups, x.l)
    ensures TableOk(Recs(x, table))
    ensures ShowsAccepted(x, table, base, ScanFrom([Recs(x, table)], None, batch, maxBytes, numeric))
            <==> Lossless(Recs(x, table), batch, maxBytes, numeric)
  {
    ForecastTables(x, table);
    forall i | 0 <= i < |table| ensures Accepts(x, table, base, table[i]) <==> Wanted(x, table[i]) {
      MarksAnswer(x, nc, table, base, groups, i);
    }
    hide Accepts, Wanted, Ready, RecOf, RowFits, L.Loaded;
    ExportsExactly(x, table, batch, maxBytes, numeric);
    var v := ScanFrom([Recs(x, table)], None, batch, maxBytes, numeric);
    hide ScanFrom, Lossless, Descending, TableOk;
    assert ShowsAccepted(x, table, base, v) <==> Shows(x, table, v);
  }
}
