/** The logical backup: one line per table section and per row, and the streaming restore that reads it
    back. */
module Backup {
  import opened Options
  import Base64
  import Decimal

  // ---------- values ----------

  /** A stored value. Real keeps the text of a number that is not a 64-bit integer; List a nested array,
      which no column holds. */
  datatype Value =
    | Null
    | Int(n: int)
    | Bool(b: bool)
    | Text(s: string)
    | Bytes(data: seq<Base64.byte>)
    | Real(text: string)
    | List(items: seq<Json>)

  /** One element of a row in the file. finite: the number's nearest floating-point value is finite. */
  datatype Json =
    | JNull
    | JNumber(text: string, finite: bool)
    | JBool(b: bool)
    | JString(s: string)
    | JObject(members: map<string, Json>)
    | JArray(items: seq<Json>)

  const TAG := "$b64"

  /** What a column can hold that the file must carry: integers of 64 bits, and bytes only in a binary
      column. */
  predicate Storable(v: Value, binary: bool) {
    match v
    case Int(n) => Decimal.InInt64(n)
    case Bytes(_) => binary
    case Real(_) => false
    case List(_) => false
    case _ => true
  }

  /** Bytes of a text column are its text. */
  function BackupValue(v: Value, binary: bool): Json
    requires Storable(v, binary)
  {
    match v
    case Null => JNull
    case Int(n) => JNumber(Decimal.IntText(n), true)
    case Bool(b) => JBool(b)
    case Text(s) => JString(s)
    case Bytes(data) => JObject(map[TAG := JString(Base64.Encode(data))])
  }

  function RestoreValue(j: Json): Option<Value> {
    match j
    case JNull => Some(Null)
    case JNumber(text, finite) =>
      (match Decimal.ParseInt(text)
       case Some(n) => Some(Int(n))
       case None => if finite then Some(Real(text)) else None)
    case JBool(b) => Some(Bool(b))
    case JString(s) => Some(Text(s))
    case JArray(items) => Some(List(items))
    case JObject(members) =>
      if TAG in members && members[TAG].JString? then
        match Base64.Decode(members[TAG].s)
        case Some(data) => Some(Bytes(data))
        case None => None
      else None
  }

  /** A value survives the file. */
  lemma ValueRoundTrip(v: Value, binary: bool)
    requires Storable(v, binary)
    ensures RestoreValue(BackupValue(v, binary)) == Some(v)
    ensures v.Bytes? ==> BackupValue(v, binary) == JObject(map["$b64" := JString(Base64.Encode(v.data))])
  {
    match v
    case Int(n) => Decimal.PrintParse(n);
    case Bytes(data) => Base64.RoundTrip(data);
    case _ =>
  }

  /** Every element restores but a number that is neither a 64-bit integer nor finite, and an object that is not
      bytes under the tag. */
  lemma RestoresExactly(j: Json)
    ensures RestoreValue(j).None? <==>
      || (j.JNumber? && Decimal.ParseInt(j.text).None? && !j.finite)
      || (j.JObject? && ("$b64" in j.members && j.members["$b64"].JString? ==>
          Base64.Decode(j.members["$b64"].s).None?))
    ensures j.JNumber? && RestoreValue(j).Some? ==>
      RestoreValue(j).value == match Decimal.ParseInt(j.text) case Some(n) => Int(n) case None => Real(j.text)
  {
    hide Base64.Decode, Decimal.ParseInt;
  }

  // ---------- the file ----------

  datatype Table = Table(name: string, columns: seq<string>, binary: seq<bool>, rows: seq<seq<Value>>)

  /** One line of the body; Broken does not decode. A line with a table name opens its section. */
  datatype Line = Line(table: string, columns: seq<string>, row: seq<Json>) | Broken

  predicate IsSection(l: Line) { l.Line? && l.table != "" }
  predicate IsRow(l: Line) { l.Line? && l.table == "" }

  predicate TableOk(t: Table) {
    && t.name != "" && |t.binary| == |t.columns|
    && forall i :: 0 <= i < |t.rows| ==> RowFits(t, t.rows[i])
  }

  predicate RowFits(t: Table, r: seq<Value>) {
    |r| == |t.columns| == |t.binary| && forall k :: 0 <= k < |r| ==> Storable(r[k], t.binary[k])
  }

  function DumpRow(t: Table, r: seq<Value>): Line
    requires RowFits(t, r)
  {
    Line("", [], seq(|r|, k requires 0 <= k < |r| => BackupValue(r[k], t.binary[k])))
  }

  function DumpRows(t: Table, n: nat): seq<Line>
    requires TableOk(t) && n <= |t.rows|
  {
    if n == 0 then [] else DumpRows(t, n - 1) + [DumpRow(t, t.rows[n - 1])]
  }

  /** The body of a dump: every table, in the order of the schema. */
  function Dump(ts: seq<Table>): seq<Line>
    requires forall i :: 0 <= i < |ts| ==> TableOk(ts[i])
  {
    if ts == [] then []
    else
      var t := ts[|ts| - 1];
      Dump(ts[..|ts| - 1]) + [Line(t.name, t.columns, [])] + DumpRows(t, |t.rows|)
  }

  /** The section of a table stands right after the lines of the tables before it, and its rows, one line each, right
      after that. */
  lemma {:induction false} DumpOrder(ts: seq<Table>, i: nat, k: nat)
    requires (forall j :: 0 <= j < |ts| ==> TableOk(ts[j])) && i < |ts| && k < |ts[i].rows|
    ensures var before := |Dump(ts[..i])|;
      && Dump(ts[..i]) <= Dump(ts) && before + 1 + |ts[i].rows| == |Dump(ts[..i + 1])| <= |Dump(ts)|
      && Dump(ts)[before] == Line(ts[i].name, ts[i].columns, [])
      && RowFits(ts[i], ts[i].rows[k]) && Dump(ts)[before + 1 + k] == DumpRow(ts[i], ts[i].rows[k])
  {
    var n := |ts| - 1;
    DumpPrefix(ts, i + 1);
    var front, t := ts[..i + 1], ts[i];
    assert front[..i] == ts[..i] && front[i] == t;
    RowsInOrder(t, |t.rows|, k);
    assert Dump(front) == Dump(ts[..i]) + [Line(t.name, t.columns, [])] + DumpRows(t, |t.rows|);
  }

  lemma {:induction false} DumpPrefix(ts: seq<Table>, i: nat)
    requires (forall j :: 0 <= j < |ts| ==> TableOk(ts[j])) && i <= |ts|
    ensures Dump(ts[..i]) <= Dump(ts)
  {
    if i == |ts| {
      assert ts[..i] == ts;
    } else {
      var front := ts[..|ts| - 1];
      assert front[..i] == ts[..i];
      DumpPrefix(front, i);
    }
  }

  lemma {:induction false} RowsInOrder(t: Table, n: nat, k: nat)
    requires TableOk(t) && k < n <= |t.rows|
    ensures |DumpRows(t, n)| == n && RowFits(t, t.rows[k]) && DumpRows(t, n)[k] == DumpRow(t, t.rows[k])
  {
    assert RowFits(t, t.rows[k]);
    RowsCounted(t, n);
    if k < n - 1 {
      RowsInOrder(t, n - 1, k);
    } else {
      RowsCounted(t, n - 1);
    }
  }

  lemma {:induction false} RowsCounted(t: Table, n: nat)
    requires TableOk(t) && n <= |t.rows|
    ensures |DumpRows(t, n)| == n
  {
    if n > 0 { RowsCounted(t, n - 1); }
  }

  method DumpTo(ts: seq<Table>) returns (lines: seq<Line>, total: nat)
    requires forall i :: 0 <= i < |ts| ==> TableOk(ts[i])
    ensures lines == Dump(ts) && total == |lines| - |ts|
  {
    lines, total := [], 0;
    var i := 0;
    while i < |ts|
      invariant 0 <= i <= |ts| && lines == Dump(ts[..i]) && total == |lines| - i
    {
      assert ts[..i + 1][..i] == ts[..i];
      var t := ts[i];
      ghost var before := lines;
      lines := lines + [Line(t.name, t.columns, [])];
      var k := 0;
      while k < |t.rows|
        invariant 0 <= k <= |t.rows|
        invariant lines == before + [Line(t.name, t.columns, [])] + DumpRows(t, k)
        invariant total == |lines| - i - 1
      {
        lines := lines + [DumpRow(t, t.rows[k])];
        total := total + 1;
        k := k + 1;
      }
      i := i + 1;
    }
    assert ts[..i] == ts;
  }

  // ---------- restoring ----------

  /** This build's schema, the columns the dump's migration level allows it to lack, and the renames its
      level does not carry yet. */
  datatype Schema = Schema(known: map<string, set<string>>, optional: map<string, set<string>>,
                           renamed: map<string, map<string, string>>)

  function Optional(sc: Schema, table: string): set<string> {
    if table in sc.optional then sc.optional[table] else {}
  }

  function Renames(sc: Schema, table: string): map<string, string> {
    if table in sc.renamed then sc.renamed[table] else map[]
  }

  function NewName(sc: Schema, table: string, c: string): string {
    var r := Renames(sc, table);
    if c in r then r[c] else c
  }

  function NewNames(sc: Schema, table: string, cols: seq<string>): (r: seq<string>)
    ensures |r| == |cols|
  {
    seq(|cols|, i requires 0 <= i < |cols| => NewName(sc, table, cols[i]))
  }

  /** A section header that fits: none of its columns already has the new name of a rename it predates,
      every column is known, and no column the schema demands is missing. */
  predicate SectionFits(sc: Schema, l: Line)
    requires l.Line?
  {
    var cols := NewNames(sc, l.table, l.columns);
    && (forall c :: c in Renames(sc, l.table) ==> Renames(sc, l.table)[c] !in l.columns)
    && l.table in sc.known
    && (forall i :: 0 <= i < |cols| ==> cols[i] in sc.known[l.table])
    && (forall c :: c in sc.known[l.table] ==> c in cols || c in Optional(sc, l.table))
  }

  predicate Restorable(row: seq<Json>) { forall k :: 0 <= k < |row| ==> RestoreValue(row[k]).Some? }

  function RestoreRow(row: seq<Json>): (r: seq<Value>)
    requires Restorable(row)
    ensures |r| == |row|
  {
    seq(|row|, k requires 0 <= k < |row| => RestoreValue(row[k]).value)
  }

  /** A restored row by column. */
  type Cells = map<string, Value>

  function CellsOf(cols: seq<string>, row: seq<Value>): Cells
    requires |cols| == |row|
  {
    map i | 0 <= i < |cols| && (forall k :: 0 <= k < i ==> cols[k] != cols[i]) :: cols[i] := row[i]
  }

  /** Where the stream stands: the open table, its columns, the tables seen, the rows loaded. */
  datatype Progress = Progress(table: string, cols: seq<string>, seen: set<string>, loaded: map<string, seq<Cells>>)

  const START := Progress("", [], {}, map[])

  function Step(sc: Schema, p: Progress, l: Line): Option<Progress> {
    if l.Broken? then None
    else if l.table != "" then
      if l.table in p.seen || !SectionFits(sc, l) then None
      else Some(Progress(l.table, NewNames(sc, l.table, l.columns), p.seen + {l.table}, p.loaded[l.table := []]))
    else if p.table == "" || p.table !in p.loaded || |l.row| != |p.cols| || !Restorable(l.row) then None
    else Some(p.(loaded := p.loaded[p.table := p.loaded[p.table] + [CellsOf(p.cols, RestoreRow(l.row))]]))
  }

  function Run(sc: Schema, lines: seq<Line>): Option<Progress> {
    if lines == [] then Some(START)
    else match Run(sc, lines[..|lines| - 1])
      case None => None
      case Some(p) => Step(sc, p, lines[|lines| - 1])
  }

  // ---------- which streams are accepted ----------

  /** The section a line belongs to: the last one opened before it. */
  function Section(lines: seq<Line>): (s: Option<Line>)
    ensures s.Some? ==> IsSection(s.value)
  {
    if lines == [] then None
    else if IsSection(lines[|lines| - 1]) then Some(lines[|lines| - 1])
    else Section(lines[..|lines| - 1])
  }

  /** It is the nearest line above that names a table. */
  lemma {:induction false} SectionExactly(lines: seq<Line>, i: nat)
    requires i < |lines| && lines[i].Line? && lines[i].table != ""
    requires forall k :: i < k < |lines| && lines[k].Line? ==> lines[k].table == ""
    ensures Section(lines) == Some(lines[i])
  {
    if i < |lines| - 1 { SectionExactly(lines[..|lines| - 1], i); }
  }

  predicate LineFits(sc: Schema, lines: seq<Line>, i: nat)
    requires i < |lines|
  {
    && !lines[i].Broken?
    && (IsSection(lines[i]) ==>
        SectionFits(sc, lines[i]) && forall k :: 0 <= k < i && IsSection(lines[k]) ==> lines[k].table != lines[i].table)
    && (IsRow(lines[i]) ==>
        && Section(lines[..i]).Some? && |lines[i].row| == |Section(lines[..i]).value.columns|
          && Restorable(lines[i].row))
  }

  /** The body is well formed: every line decodes, no section is repeated, unknown or unfitting, and every
      row lies in a section, has its width and holds restorable values. */
  predicate BodyFits(sc: Schema, lines: seq<Line>) {
    forall i :: 0 <= i < |lines| ==> LineFits(sc, lines, i)
  }

  predicate Sectioned(lines: seq<Line>, t: string) {
    exists i :: 0 <= i < |lines| && IsSection(lines[i]) && lines[i].table == t
  }

  predicate Accepted(sc: Schema, declared: seq<string>, lines: seq<Line>) {
    BodyFits(sc, lines) && forall i :: 0 <= i < |declared| ==> Sectioned(lines, declared[i])
  }

  lemma FrontLines(sc: Schema, lines: seq<Line>, i: nat)
    requires i < |lines| - 1
    ensures LineFits(sc, lines[..|lines| - 1], i) <==> LineFits(sc, lines, i)
  {
    var front := lines[..|lines| - 1];
    assert front[..i] == lines[..i];
    assert forall k :: 0 <= k <= i ==> front[k] == lines[k];
  }

  ghost predicate Stands(sc: Schema, lines: seq<Line>, p: Progress) {
    && (forall t :: t in p.seen <==> Sectioned(lines, t))
    && p.loaded.Keys == p.seen
    && (match Section(lines)
        case None => p.table == ""
        case Some(s) => p.table == s.table && p.cols == NewNames(sc, s.table, s.columns) && p.table in p.seen)
  }

  lemma SectionIsSection(lines: seq<Line>)
    ensures Section(lines).Some? ==> IsSection(Section(lines).value) && Sectioned(lines, Section(lines).value.table)
  {
    if lines != [] && !IsSection(lines[|lines| - 1]) {
      SectionIsSection(lines[..|lines| - 1]);
      var front := lines[..|lines| - 1];
      if Section(lines).Some? {
        var i :| 0 <= i < |front| && IsSection(front[i]) && front[i].table == Section(lines).value.table;
        assert lines[i] == front[i];
      }
    }
  }

  lemma SectionedFront(lines: seq<Line>, t: string)
    requires lines != []
    ensures Sectioned(lines, t) <==>
      Sectioned(lines[..|lines| - 1], t) || (IsSection(lines[|lines| - 1]) && lines[|lines| - 1].table == t)
  {
    var front := lines[..|lines| - 1];
    assert forall k :: 0 <= k < |front| ==> front[k] == lines[k];
    if Sectioned(front, t) {
      var i :| 0 <= i < |front| && IsSection(front[i]) && front[i].table == t;
      assert IsSection(lines[i]) && lines[i].table == t;
    }
    if Sectioned(lines, t) {
      var i :| 0 <= i < |lines| && IsSection(lines[i]) && lines[i].table == t;
      if i < |front| { assert IsSection(front[i]) && front[i].table == t; }
    }
  }

  lemma LastLine(sc: Schema, lines: seq<Line>, p: Progress)
    requires lines != [] && Stands(sc, lines[..|lines| - 1], p)
    ensures Step(sc, p, lines[|lines| - 1]).Some? <==> LineFits(sc, lines, |lines| - 1)
    ensures Step(sc, p, lines[|lines| - 1]).Some? ==> Stands(sc, lines, Step(sc, p, lines[|lines| - 1]).value)
  {
    var n := |lines| - 1;
    var front, l := lines[..n], lines[n];
    SectionIsSection(front);
    forall t: string
      ensures Sectioned(lines, t) <==> Sectioned(front, t) || (IsSection(l) && l.table == t)
    {
      SectionedFront(lines, t);
    }
    if IsSection(l) {
      SeenBefore(lines, l.table);
    }
    hide Restorable, SectionFits, Sectioned, NewNames;
  }

  lemma SeenBefore(lines: seq<Line>, t: string)
    requires lines != []
    ensures Sectioned(lines[..|lines| - 1], t) <==>
      exists k :: 0 <= k < |lines| - 1 && IsSection(lines[k]) && lines[k].table == t
  {
    var front := lines[..|lines| - 1];
    assert forall k :: 0 <= k < |front| ==> front[k] == lines[k];
    if exists k :: 0 <= k < |lines| - 1 && IsSection(lines[k]) && lines[k].table == t {
      var k :| 0 <= k < |lines| - 1 && IsSection(lines[k]) && lines[k].table == t;
      assert IsSection(front[k]) && front[k].table == t;
    }
  }

  /** The stream is read to its end exactly when its body is well formed. */
  lemma {:induction false} RunExactly(sc: Schema, lines: seq<Line>)
    ensures Run(sc, lines).Some? <==> BodyFits(sc, lines)
    ensures Run(sc, lines).Some? ==> Stands(sc, lines, Run(sc, lines).value)
  {
    if lines != [] {
      var n := |lines| - 1;
      var front := lines[..n];
      RunExactly(sc, front);
      forall i | 0 <= i < n ensures LineFits(sc, front, i) <==> LineFits(sc, lines, i) { FrontLines(sc, lines, i); }
      assert BodyFits(sc, lines) <==> BodyFits(sc, front) && LineFits(sc, lines, n);
      if Run(sc, front).Some? { LastLine(sc, lines, Run(sc, front).value); }
    }
  }

  // ---------- the stream loop ----------

  datatype Report = Report(rows: map<string, nat>, total: nat)

  /** The number of rows per table, tables without rows left out. */
  function CountsOf(loaded: map<string, seq<Cells>>): (r: map<string, nat>)
    ensures forall t :: t in r <==> t in loaded && loaded[t] != []
    ensures forall t :: t in r ==> r[t] == |loaded[t]|
  {
    map t | t in loaded && loaded[t] != [] :: |loaded[t]|
  }

  /** How many lines are rows. */
  function RowLines(lines: seq<Line>): (n: nat)
    ensures n == |RowPlaces(lines)|
  {
    if lines == [] then assert RowPlaces([]) == {}; 0
    else
      RowsSplit(lines);
      RowLines(lines[..|lines| - 1]) + if IsRow(lines[|lines| - 1]) then 1 else 0
  }

  /** Where the rows stand. */
  function RowPlaces(lines: seq<Line>): set<int> {
    set i | 0 <= i < |lines| && lines[i].Line? && lines[i].table == ""
  }

  lemma RowsSplit(lines: seq<Line>)
    requires lines != []
    ensures var last := |lines| - 1;
      |RowPlaces(lines)| == |RowPlaces(lines[..last])| + if IsRow(lines[last]) then 1 else 0
  {
    var last := |lines| - 1;
    assert RowPlaces(lines) == RowPlaces(lines[..last]) + if IsRow(lines[last]) then {last} else {};
  }

  /** Every table of the schema without a row, as a restore starts. */
  function Emptied(sc: Schema): (r: map<string, seq<Cells>>)
    ensures r.Keys == sc.known.Keys && forall t :: t in r ==> r[t] == []
  {
    map t | t in sc.known :: []
  }

  class Target {
    /** The tables by name, rows by column. */
    var tables: map<string, seq<Cells>>

    constructor (tables: map<string, seq<Cells>>)
      ensures this.tables == tables
    {
      this.tables := tables;
    }

    /** Reads the body. Without force nothing is written, and the answer is the same. With force every
        table of the schema has been emptied first; on a refusal the transaction is taken back. */
    method RestoreStream(sc: Schema, declared: seq<string>, lines: seq<Line>, force: bool)
      returns (report: Option<Report>)
      modifies this
      ensures report.Some? <==> Accepted(sc, declared, lines)
      ensures report.Some? ==> Run(sc, lines).Some?
      ensures report.Some? ==>
        report.value.total == RowLines(lines) && report.value.rows == CountsOf(Run(sc, lines).value.loaded)
      ensures force && report.Some? ==> tables == Emptied(sc) + Run(sc, lines).value.loaded
      ensures !force || report.None? ==> tables == old(tables)
    {
      RunExactly(sc, lines);
      AcceptedFits(sc, declared, lines);
      StartHolds(sc, lines, force);
      hide *;
      var table, cols := "", [];
      var seen: set<string> := {};
      var counts: map<string, nat> := map[];
      var total: nat := 0;
      var written: map<string, seq<Cells>> := Emptied(sc);
      var i := 0;
      while i < |lines|
        invariant 0 <= i <= |lines| && tables == old(tables)
        invariant Run(sc, lines[..i]).Some?
        invariant Holds(sc, Run(sc, lines[..i]).value, table, cols, seen, counts, written, force)
        invariant total == RowLines(lines[..i])
      {
        var l := lines[i];
        ghost var p := Run(sc, lines[..i]).value;
        NextLine(sc, lines, i);
        StepHolds(sc, p, l, table, cols, seen, counts, written, force);
        if l.Broken? { return None; }
        if l.table != "" {
          if l.table in seen || !SectionFits(sc, l) { return None; }
          table, cols := l.table, NewNames(sc, l.table, l.columns);
          seen := seen + {l.table};
        } else {
          if table == "" || |l.row| != |cols| || !Restorable(l.row) { return None; }
          if force {
            written := Appended(written, table, CellsOf(cols, RestoreRow(l.row)));
          }
          counts := counts[table := 1 + if table in counts then counts[table] else 0];
          total := total + 1;
        }
        i := i + 1;
      }
      assert lines[..i] == lines;
      ghost var p := Run(sc, lines).value;
      AllDeclared(sc, lines, p, declared);
      HoldsAtEnd(sc, p, table, cols, seen, counts, written, force);
      var complete := CheckDeclared(declared, seen);
      if !complete { return None; }
      if force { tables := written; }
      report := Some(Report(counts, total));
    }
  }

  method CheckDeclared(declared: seq<string>, seen: set<string>) returns (complete: bool)
    ensures complete <==> forall i :: 0 <= i < |declared| ==> declared[i] in seen
  {
    var k := 0;
    while k < |declared|
      invariant 0 <= k <= |declared| && forall j :: 0 <= j < k ==> declared[j] in seen
    {
      if declared[k] !in seen { return false; }
      k := k + 1;
    }
    complete := true;
  }

  lemma AllDeclared(sc: Schema, lines: seq<Line>, p: Progress, declared: seq<string>)
    requires Stands(sc, lines, p) && BodyFits(sc, lines)
    ensures Accepted(sc, declared, lines) <==> forall i :: 0 <= i < |declared| ==> declared[i] in p.seen
  {
  }

  function Appended(written: map<string, seq<Cells>>, table: string, row: Cells): map<string, seq<Cells>> {
    written[table := (if table in written then written[table] else []) + [row]]
  }

  /** The loop's variables hold what has been read so far. */
  predicate Holds(sc: Schema, p: Progress, table: string, cols: seq<string>, seen: set<string>,
                  counts: map<string, nat>,
                  written: map<string, seq<Cells>>, force: bool) {
    && table == p.table && cols == p.cols && seen == p.seen
    && counts == CountsOf(p.loaded)
    && p.seen <= sc.known.Keys && p.loaded.Keys == p.seen && (p.table != "" ==> p.table in p.seen)
    && written == Emptied(sc) + if force then p.loaded else map[]
  }

  lemma HoldsAtEnd(sc: Schema, p: Progress, table: string, cols: seq<string>, seen: set<string>,
                   counts: map<string, nat>,
                   written: map<string, seq<Cells>>, force: bool)
    requires Holds(sc, p, table, cols, seen, counts, written, force)
    ensures seen == p.seen && counts == CountsOf(p.loaded) && (force ==> written == Emptied(sc) + p.loaded)
  {
  }

  lemma AcceptedFits(sc: Schema, declared: seq<string>, lines: seq<Line>)
    ensures Accepted(sc, declared, lines) ==> BodyFits(sc, lines)
  {
  }

  lemma StartHolds(sc: Schema, lines: seq<Line>, force: bool)
    ensures Run(sc, lines[..0]) == Some(START) && RowLines(lines[..0]) == 0
    ensures Holds(sc, START, "", [], {}, map[], Emptied(sc), force)
  {
    assert CountsOf(map[]) == map[];
    assert Emptied(sc) + map[] == Emptied(sc);
  }

  lemma NextLine(sc: Schema, lines: seq<Line>, i: nat)
    requires i < |lines| && Run(sc, lines[..i]).Some?
    ensures Run(sc, lines[..i + 1]) == Step(sc, Run(sc, lines[..i]).value, lines[i])
    ensures Run(sc, lines[..i + 1]).None? ==> Run(sc, lines).None?
    ensures RowLines(lines[..i + 1]) == RowLines(lines[..i]) + if lines[i].Line? && lines[i].table == "" then 1 else 0
  {
    assert lines[..i + 1][..i] == lines[..i];
    if Run(sc, lines[..i + 1]).None? { StaysRefused(sc, lines, i + 1); }
  }

  lemma {:induction false} StaysRefused(sc: Schema, lines: seq<Line>, i: nat)
    requires i <= |lines| && Run(sc, lines[..i]).None?
    ensures Run(sc, lines).None?
  {
    if i == |lines| {
      assert lines[..i] == lines;
    } else {
      var front := lines[..|lines| - 1];
      assert front[..i] == lines[..i];
      StaysRefused(sc, front, i);
    }
  }

  lemma StepHolds(sc: Schema, p: Progress, l: Line, table: string, cols: seq<string>, seen: set<string>,
                  counts: map<string, nat>,
                  written: map<string, seq<Cells>>, force: bool)
    requires Holds(sc, p, table, cols, seen, counts, written, force)
    ensures l.Broken? ==> Step(sc, p, l).None?
    ensures l.Line? && l.table != "" ==> (Step(sc, p, l).Some? <==> l.table !in seen && SectionFits(sc, l))
    ensures l.Line? && l.table == "" ==> (Step(sc, p, l).Some? <==>
      table != "" && |l.row| == |cols| && Restorable(l.row))
    ensures Step(sc, p, l).Some? && l.table != "" ==>
      Holds(sc, Step(sc, p, l).value, l.table, NewNames(sc, l.table, l.columns), seen + {l.table}, counts, written,
            force)
    ensures Step(sc, p, l).Some? && l.table == "" ==>
      Holds(sc, Step(sc, p, l).value, table, cols, seen,
            counts[table := 1 + if table in counts then counts[table] else 0],
            if force then Appended(written, table, CellsOf(cols, RestoreRow(l.row))) else written, force)
  {
    if Step(sc, p, l).Some? {
      var q := Step(sc, p, l).value;
      if l.table != "" {
        OpenCounts(p.loaded, l.table);
        assert l.table in sc.known;
        OpenWritten(sc, p.loaded, l.table);
      } else {
        var row := CellsOf(p.cols, RestoreRow(l.row));
        RowCounts(p.loaded, p.table, row);
        RowWritten(sc, p.loaded, p.table, row);
      }
    }
  }

  lemma OpenCounts(loaded: map<string, seq<Cells>>, t: string)
    requires t !in loaded
    ensures CountsOf(loaded[t := []]) == CountsOf(loaded)
  {
  }

  lemma OpenWritten(sc: Schema, loaded: map<string, seq<Cells>>, t: string)
    requires t !in loaded && t in sc.known
    ensures Emptied(sc) + loaded[t := []] == Emptied(sc) + loaded
  {
  }

  lemma RowCounts(loaded: map<string, seq<Cells>>, t: string, row: Cells)
    requires t in loaded
    ensures CountsOf(loaded[t := loaded[t] + [row]])
      == CountsOf(loaded)[t := 1 + if t in CountsOf(loaded) then CountsOf(loaded)[t] else 0]
  {
  }

  lemma RowWritten(sc: Schema, loaded: map<string, seq<Cells>>, t: string, row: Cells)
    requires t in loaded
    ensures Appended(Emptied(sc) + loaded, t, row) == Emptied(sc) + loaded[t := loaded[t] + [row]]
  {
  }

  // ---------- the round trip ----------

  predicate DistinctNames(ts: seq<Table>) { forall i, j :: 0 <= i < j < |ts| ==> ts[i].name != ts[j].name }

  /** The schema of the build that wrote the dump, restored by the same build. */
  predicate SameBuild(sc: Schema, ts: seq<Table>) {
    && sc.renamed == map[]
    && (forall i :: 0 <= i < |ts| ==> ts[i].name in sc.known && sc.known[ts[i].name] == set c | c in ts[i].columns)
  }

  /** A dump this build can load, table by table; it may come from an earlier release. */
  predicate Fit(sc: Schema, ts: seq<Table>) {
    forall i :: 0 <= i < |ts| ==> SectionFits(sc, Line(ts[i].name, ts[i].columns, []))
  }

  /** The rows of a table under the columns' names in this build. */
  function Content(sc: Schema, t: Table): seq<Cells>
    requires TableOk(t)
  {
    seq(|t.rows|, i requires 0 <= i < |t.rows| => CellsOf(NewNames(sc, t.name, t.columns), t.rows[i]))
  }

  lemma RowRoundTrip(t: Table, r: seq<Value>)
    requires RowFits(t, r)
    ensures Restorable(DumpRow(t, r).row) && RestoreRow(DumpRow(t, r).row) == r
  {
    var row := DumpRow(t, r).row;
    forall k | 0 <= k < |row| ensures RestoreValue(row[k]) == Some(r[k]) { ValueRoundTrip(r[k], t.binary[k]); }
  }

  lemma RunLast(sc: Schema, lines: seq<Line>, l: Line)
    requires Run(sc, lines).Some?
    ensures Run(sc, lines + [l]) == Step(sc, Run(sc, lines).value, l)
  {
    assert (lines + [l])[..|lines|] == lines;
  }

  lemma NamesUnchanged(sc: Schema, ts: seq<Table>, i: nat)
    requires SameBuild(sc, ts) && i < |ts|
    ensures NewNames(sc, ts[i].name, ts[i].columns) == ts[i].columns
    ensures SectionFits(sc, Line(ts[i].name, ts[i].columns, []))
  {
    assert NewNames(sc, ts[i].name, ts[i].columns) == ts[i].columns;
  }

  /** The build that wrote a dump can load it, under the names it wrote. */
  lemma SameBuildFits(sc: Schema, ts: seq<Table>)
    requires SameBuild(sc, ts)
    ensures Fit(sc, ts)
    ensures forall i :: 0 <= i < |ts| ==> NewNames(sc, ts[i].name, ts[i].columns) == ts[i].columns
  {
    forall i | 0 <= i < |ts|
      ensures NewNames(sc, ts[i].name, ts[i].columns) == ts[i].columns
      ensures SectionFits(sc, Line(ts[i].name, ts[i].columns, []))
    {
      NamesUnchanged(sc, ts, i);
    }
  }

  /** The table's section has been opened and no row of it read. */
  predicate Opened(sc: Schema, p: Progress, t: Table) {
    p.table == t.name && p.cols == NewNames(sc, t.name, t.columns) && t.name in p.loaded && p.loaded[t.name] == []
  }

  /** The same with the first rows of the table loaded. */
  function WithRows(sc: Schema, p: Progress, t: Table, n: nat): Progress
    requires TableOk(t) && n <= |t.rows|
  {
    p.(loaded := p.loaded[t.name := Content(sc, t)[..n]])
  }

  lemma OneRowLoads(sc: Schema, p: Progress, t: Table, n: nat)
    requires TableOk(t) && n < |t.rows| && Opened(sc, p, t)
    ensures RowFits(t, t.rows[n])
    ensures Step(sc, WithRows(sc, p, t, n), DumpRow(t, t.rows[n])) == Some(WithRows(sc, p, t, n + 1))
  {
    assert RowFits(t, t.rows[n]);
    RowRoundTrip(t, t.rows[n]);
    var l := DumpRow(t, t.rows[n]);
    assert l.Line? && l.table == "" && |l.row| == |p.cols|;
    assert Content(sc, t)[..n + 1] == Content(sc, t)[..n] + [Content(sc, t)[n]];
    hide Restorable, RestoreRow, CellsOf, DumpRow, RowFits;
    var m, a, b := p.loaded, Content(sc, t)[..n], Content(sc, t)[..n + 1];
    assert m[t.name := a][t.name := b] == m[t.name := b];
  }

  lemma RowsNext(t: Table, pre: seq<Line>, n: nat)
    requires TableOk(t) && n < |t.rows| && RowFits(t, t.rows[n])
    ensures pre + DumpRows(t, n + 1) == (pre + DumpRows(t, n)) + [DumpRow(t, t.rows[n])]
  {
    hide DumpRow, TableOk, RowFits;
  }

  lemma NoRowsYet(sc: Schema, p: Progress, t: Table, pre: seq<Line>)
    requires TableOk(t) && Opened(sc, p, t)
    ensures pre + DumpRows(t, 0) == pre && WithRows(sc, p, t, 0) == p
  {
    assert p.loaded[t.name := Content(sc, t)[..0]] == p.loaded;
  }

  lemma {:induction false} RowsLoad(sc: Schema, t: Table, pre: seq<Line>, n: nat)
    requires TableOk(t) && n <= |t.rows| && Run(sc, pre).Some? && Opened(sc, Run(sc, pre).value, t)
    ensures Run(sc, pre + DumpRows(t, n)) == Some(WithRows(sc, Run(sc, pre).value, t, n))
  {
    hide *;
    if n == 0 {
      NoRowsYet(sc, Run(sc, pre).value, t, pre);
    } else {
      RowsLoad(sc, t, pre, n - 1);
      OneRowLoads(sc, Run(sc, pre).value, t, n - 1);
      RowsNext(t, pre, n - 1);
      RunLast(sc, pre + DumpRows(t, n - 1), DumpRow(t, t.rows[n - 1]));
    }
  }

  function Contents(sc: Schema, ts: seq<Table>): map<string, seq<Cells>>
    requires forall i :: 0 <= i < |ts| ==> TableOk(ts[i])
  {
    if ts == [] then map[] else Contents(sc, ts[..|ts| - 1])[ts[|ts| - 1].name := Content(sc, ts[|ts| - 1])]
  }

  function Names(ts: seq<Table>): set<string> { set i | 0 <= i < |ts| :: ts[i].name }

  /** The stream right after the section of a table. */
  function AtHead(sc: Schema, p: Progress, t: Table): Progress {
    Progress(t.name, NewNames(sc, t.name, t.columns), p.seen + {t.name}, p.loaded[t.name := []])
  }

  /** The stream after its rows. */
  function AtEnd(sc: Schema, p: Progress, t: Table): Progress
    requires TableOk(t)
  {
    Progress(t.name, NewNames(sc, t.name, t.columns), p.seen + {t.name}, p.loaded[t.name := Content(sc, t)])
  }

  lemma HeadOpens(sc: Schema, p: Progress, t: Table)
    requires SectionFits(sc, Line(t.name, t.columns, [])) && t.name != "" && t.name !in p.seen
    ensures Step(sc, p, Line(t.name, t.columns, [])) == Some(AtHead(sc, p, t)) && Opened(sc, AtHead(sc, p, t), t)
  {
  }

  lemma RowsEnd(sc: Schema, p: Progress, t: Table)
    requires TableOk(t)
    ensures WithRows(sc, AtHead(sc, p, t), t, |t.rows|) == AtEnd(sc, p, t)
  {
    assert Content(sc, t)[..|t.rows|] == Content(sc, t);
    assert p.loaded[t.name := []][t.name := Content(sc, t)] == p.loaded[t.name := Content(sc, t)];
  }

  /** One table's section and rows, after anything that does not name it. */
  lemma TableLoads(sc: Schema, t: Table, pre: seq<Line>)
    requires TableOk(t) && t.name != "" && SectionFits(sc, Line(t.name, t.columns, []))
    requires Run(sc, pre).Some? && t.name !in Run(sc, pre).value.seen
    ensures Run(sc, pre + [Line(t.name, t.columns, [])] + DumpRows(t, |t.rows|))
      == Some(AtEnd(sc, Run(sc, pre).value, t))
  {
    hide *;
    var p, head := Run(sc, pre).value, Line(t.name, t.columns, []);
    RunLast(sc, pre, head);
    HeadOpens(sc, p, t);
    RowsLoad(sc, t, pre + [head], |t.rows|);
    RowsEnd(sc, p, t);
  }

  lemma LastTable(sc: Schema, ts: seq<Table>)
    requires ts != [] && (forall i :: 0 <= i < |ts| ==> TableOk(ts[i])) && DistinctNames(ts)
    ensures var n := |ts| - 1; var front, t := ts[..n], ts[n];
      && (forall i :: 0 <= i < n ==> TableOk(front[i])) && DistinctNames(front)
      && Names(ts) == Names(front) + {t.name} && t.name !in Names(front)
      && Dump(ts) == Dump(front) + [Line(t.name, t.columns, [])] + DumpRows(t, |t.rows|)
      && Contents(sc, ts) == Contents(sc, front)[t.name := Content(sc, t)]
  {
    var n := |ts| - 1;
    var front := ts[..n];
    assert forall i :: 0 <= i < n ==> front[i] == ts[i];
    hide TableOk, DumpRows, Content;
    forall x | x in Names(ts) ensures x in Names(front) + {ts[n].name} {
      var i :| 0 <= i < |ts| && ts[i].name == x;
      if i < n { assert front[i].name == x; }
    }
  }

  lemma LastFits(sc: Schema, ts: seq<Table>)
    requires ts != [] && Fit(sc, ts) && TableOk(ts[|ts| - 1])
    ensures var t := ts[|ts| - 1]; t.name != "" && SectionFits(sc, Line(t.name, t.columns, []))
  {
    hide SectionFits;
  }

  lemma EndOf(sc: Schema, p: Progress, t: Table)
    requires TableOk(t)
    ensures AtEnd(sc, p, t).loaded == p.loaded[t.name := Content(sc, t)] && AtEnd(sc, p, t).seen == p.seen + {t.name}
  {
  }

  lemma FitFront(sc: Schema, ts: seq<Table>, n: nat)
    requires Fit(sc, ts) && n <= |ts|
    ensures Fit(sc, ts[..n])
  {
    hide SectionFits;
  }

  /** Restoring a dump reproduces every table, row for row and in order, each value under its column's name
      in this build. */
  lemma {:induction false} DumpRestores(sc: Schema, ts: seq<Table>)
    requires (forall i :: 0 <= i < |ts| ==> TableOk(ts[i])) && DistinctNames(ts) && Fit(sc, ts)
    ensures Run(sc, Dump(ts)).Some?
    ensures Run(sc, Dump(ts)).value.loaded == Contents(sc, ts)
    ensures Run(sc, Dump(ts)).value.seen == Names(ts)
  {
    if ts != [] {
      hide *;
      var n := |ts| - 1;
      LastTable(sc, ts);
      FitFront(sc, ts, n);
      DumpRestores(sc, ts[..n]);
      LastFits(sc, ts);
      TableLoads(sc, ts[n], Dump(ts[..n]));
      EndOf(sc, Run(sc, Dump(ts[..n])).value, ts[n]);
    }
  }

  function TableNames(ts: seq<Table>): seq<string> { seq(|ts|, i requires 0 <= i < |ts| => ts[i].name) }

  /** A dump whose sections fit is accepted, with every declared table present. */
  lemma DumpAccepted(sc: Schema, ts: seq<Table>)
    requires (forall i :: 0 <= i < |ts| ==> TableOk(ts[i])) && DistinctNames(ts) && Fit(sc, ts)
    ensures Accepted(sc, TableNames(ts), Dump(ts))
  {
    DumpRestores(sc, ts);
    RunExactly(sc, Dump(ts));
    forall i | 0 <= i < |ts| ensures Sectioned(Dump(ts), ts[i].name) {
      assert ts[i].name in Names(ts);
    }
  }

  lemma {:induction false} ContentsAre(sc: Schema, ts: seq<Table>, i: nat)
    requires (forall k :: 0 <= k < |ts| ==> TableOk(ts[k])) && DistinctNames(ts) && i < |ts|
    ensures ts[i].name in Contents(sc, ts) && Contents(sc, ts)[ts[i].name] == Content(sc, ts[i])
  {
    if i < |ts| - 1 {
      var front := ts[..|ts| - 1];
      assert front[i] == ts[i];
      ContentsAre(sc, front, i);
    }
  }

  lemma {:induction false} FirstOf(cols: seq<string>, k: nat) returns (i: nat)
    requires k < |cols|
    ensures i <= k && cols[i] == cols[k] && forall n :: 0 <= n < i ==> cols[n] != cols[i]
  {
    i := k;
    if n :| 0 <= n < k && cols[n] == cols[k] { i := FirstOf(cols, n); }
  }

  /** A row by column holds, for every column, the value where its name first stands. */
  lemma CellsMean(cols: seq<string>, row: seq<Value>)
    requires |cols| == |row|
    ensures CellsOf(cols, row).Keys == set c | c in cols
    ensures forall k :: 0 <= k < |cols| && (forall n :: 0 <= n < k ==> cols[n] != cols[k]) ==>
      CellsOf(cols, row)[cols[k]] == row[k]
  {
    forall c | c in cols ensures c in CellsOf(cols, row) {
      var k :| 0 <= k < |cols| && cols[k] == c;
      var i := FirstOf(cols, k);
    }
  }

  /** The build that wrote a dump gets every table back as it was: the same rows in the same order, each
      value in its column, and no other table. */
  lemma OwnDumpRestores(sc: Schema, ts: seq<Table>, i: nat)
    requires (forall k :: 0 <= k < |ts| ==> TableOk(ts[k])) && DistinctNames(ts) && SameBuild(sc, ts) && i < |ts|
    ensures Accepted(sc, TableNames(ts), Dump(ts)) && Run(sc, Dump(ts)).Some?
    ensures Run(sc, Dump(ts)).value.seen == Names(ts)
    ensures var loaded := Run(sc, Dump(ts)).value.loaded;
      && ts[i].name in loaded && |loaded[ts[i].name]| == |ts[i].rows|
      && forall r :: 0 <= r < |ts[i].rows| ==>
        RowFits(ts[i], ts[i].rows[r]) && loaded[ts[i].name][r] == CellsOf(ts[i].columns, ts[i].rows[r])
  {
    SameBuildFits(sc, ts);
    ContentsAre(sc, ts, i);
    assert TableOk(ts[i]);
    hide Run, Dump, Contents, Fit, SameBuild, CellsOf;
    DumpRestores(sc, ts);
    DumpAccepted(sc, ts);
  }

  /** Value by value: each row has a cell for every column and no other, holding what the dump's row has there. */
  lemma OwnValues(sc: Schema, ts: seq<Table>, i: nat, r: nat, k: nat)
    requires (forall n :: 0 <= n < |ts| ==> TableOk(ts[n])) && DistinctNames(ts) && SameBuild(sc, ts)
    requires i < |ts| && r < |ts[i].rows| && k < |ts[i].columns|
    ensures var done := Run(sc, Dump(ts));
      done.Some? && ts[i].name in done.value.loaded && r < |done.value.loaded[ts[i].name]|
    ensures var cells, cols := Run(sc, Dump(ts)).value.loaded[ts[i].name][r], ts[i].columns;
      && |cols| == |ts[i].rows[r]| && cells.Keys == (set c | c in cols)
      && ((forall n :: 0 <= n < k ==> cols[n] != cols[k]) ==> cells[cols[k]] == ts[i].rows[r][k])
  {
    OwnDumpRestores(sc, ts, i);
    assert RowFits(ts[i], ts[i].rows[r]);
    CellsMean(ts[i].columns, ts[i].rows[r]);
    hide Run, Dump, SameBuild, CellsOf, TableOk;
  }
}
