/** Which dumps a build can load: the header, and the schema steps a dump predates. */
module BackupLevels {
  import opened Options
  import opened Backup

  const FORMAT := "report-portal-backup"
  const FORMAT_VERSION := 1
  const SCHEMA_BASELINE := 2

  // ---------- the history of the schema ----------

  datatype Rename = Rename(table: string, from: string, to: string)

  datatype Column = Column(table: string, name: string)

  datatype NewTable = NewTable(name: string, columns: set<string>)

  /** One schema step. older: a dump from before it may simply lack what it adds; upgrade: loading one would
      need the step's work on the data. */
  datatype Change = Change(id: string, columns: seq<Column>, tables: seq<NewTable>, renames: seq<Rename>,
                           older: bool, upgrade: bool)

  datatype History = History(base: map<string, set<string>>, steps: seq<Change>)

  function Base(h: History, t: string): set<string> { if t in h.base then h.base[t] else {} }

  function Added(m: Change, t: string): set<string> {
    set i | 0 <= i < |m.columns| && m.columns[i].table == t :: m.columns[i].name
  }

  function Created(m: Change, t: string): set<string> {
    set i, c | 0 <= i < |m.tables| && m.tables[i].name == t && c in m.tables[i].columns :: c
  }

  function Targets(m: Change, t: string): set<string> {
    set i | 0 <= i < |m.renames| && m.renames[i].table == t :: m.renames[i].to
  }

  function Froms(m: Change, t: string): set<string> {
    set i | 0 <= i < |m.renames| && m.renames[i].table == t :: m.renames[i].from
  }

  function Born(m: Change, t: string): set<string> { Added(m, t) + Created(m, t) + Targets(m, t) }

  predicate Creates(m: Change, t: string) { exists i :: 0 <= i < |m.tables| && m.tables[i].name == t }

  /** A table's columns after the first k steps. */
  function ColumnsAt(h: History, k: nat, t: string): set<string>
    requires k <= |h.steps|
  {
    if k == 0 then Base(h, t)
    else ColumnsAt(h, k - 1, t) + Born(h.steps[k - 1], t) - Froms(h.steps[k - 1], t)
  }

  predicate TableAt(h: History, k: nat, t: string)
    requires k <= |h.steps|
  {
    t in h.base || exists i :: 0 <= i < k && Creates(h.steps[i], t)
  }

  predicate DistinctSteps(h: History) { forall i, j :: 0 <= i < j < |h.steps| ==> h.steps[i].id != h.steps[j].id }

  /** The rules the list of steps keeps: an id names one step, a column name is used once per table, only
      columns of the baseline are renamed, each once, and a table is created once. */
  ghost predicate Sound(h: History) {
    && DistinctSteps(h)
    && (forall t, c :: UsedOnce(h, t, c))
    && (forall i :: 0 <= i < |h.steps| ==> PairsApart(h.steps[i].renames))
    && (forall t :: CreatedOnce(h, t))
  }

  predicate UsedOnce(h: History, t: string, c: string) {
    && (forall i :: 0 <= i < |h.steps| && c in Born(h.steps[i], t) ==> c !in Base(h, t))
    && (forall i, j :: 0 <= i < j < |h.steps| && c in Born(h.steps[i], t) ==> c !in Born(h.steps[j], t))
    && (forall i :: 0 <= i < |h.steps| && c in Targets(h.steps[i], t) ==>
          c !in Added(h.steps[i], t) && c !in Created(h.steps[i], t))
    && (forall i :: 0 <= i < |h.steps| && c in Froms(h.steps[i], t) ==> c in Base(h, t))
    && (forall i, j :: 0 <= i < j < |h.steps| && c in Froms(h.steps[i], t) ==> c !in Froms(h.steps[j], t))
  }

  predicate CreatedOnce(h: History, t: string) {
    && (forall i :: 0 <= i < |h.steps| && Creates(h.steps[i], t) ==> t !in h.base)
    && (forall i, j :: 0 <= i < j < |h.steps| && Creates(h.steps[i], t) ==> !Creates(h.steps[j], t))
  }

  /** Within one step no column is renamed twice and no name is given twice. */
  predicate PairsApart(rs: seq<Rename>) {
    forall a, b :: 0 <= a < b < |rs| && rs[a].table == rs[b].table ==> rs[a].from != rs[b].from && rs[a].to != rs[b].to
  }

  predicate Came(h: History, k: nat, t: string, c: string)
    requires k <= |h.steps|
  {
    exists i :: 0 <= i < k && c in Born(h.steps[i], t)
  }

  predicate Left(h: History, k: nat, t: string, c: string)
    requires k <= |h.steps|
  {
    exists i :: 0 <= i < k && c in Froms(h.steps[i], t)
  }

  lemma OneStep(h: History, k: nat, t: string, c: string)
    requires 0 < k <= |h.steps|
    ensures Came(h, k, t, c) <==> Came(h, k - 1, t, c) || c in Born(h.steps[k - 1], t)
    ensures Left(h, k, t, c) <==> Left(h, k - 1, t, c) || c in Froms(h.steps[k - 1], t)
  {
    hide Born, Froms;
  }

  lemma NewStays(h: History, k: nat, i: nat, t: string, c: string)
    requires Sound(h) && k <= |h.steps| && i < |h.steps| && c in Born(h.steps[i], t)
    ensures c !in Base(h, t) && !Left(h, k, t, c)
  {
    assert UsedOnce(h, t, c);
    hide Born, Froms;
    assert Left(h, k, t, c) ==> c in Base(h, t);
  }

  lemma {:induction false} ColumnsAre(h: History, k: nat, t: string, c: string)
    requires Sound(h) && k <= |h.steps|
    ensures c in ColumnsAt(h, k, t) <==> (c in Base(h, t) || Came(h, k, t, c)) && !Left(h, k, t, c)
  {
    if k > 0 {
      ColumnsAre(h, k - 1, t, c);
      OneStep(h, k, t, c);
      if c in Born(h.steps[k - 1], t) { NewStays(h, k, k - 1, t, c); }
      hide Sound, Born, Froms, Came, Left;
    }
  }

  /** Whether a step gives a table a column of that name: added to it, part of it as created, or what another is
      renamed to. */
  predicate Gives(m: Change, t: string, c: string) {
    || Column(t, c) in m.columns
    || (exists i :: 0 <= i < |m.tables| && m.tables[i].name == t && c in m.tables[i].columns)
    || (exists i :: 0 <= i < |m.renames| && m.renames[i].table == t && m.renames[i].to == c)
  }

  lemma GivesExactly(m: Change, t: string, c: string)
    ensures Gives(m, t, c) <==> c in Born(m, t)
    ensures c in Froms(m, t) <==> exists i :: 0 <= i < |m.renames| && m.renames[i].table == t && m.renames[i].from == c
  {
    if Column(t, c) in m.columns {
      var i :| 0 <= i < |m.columns| && m.columns[i] == Column(t, c);
    }
  }

  /** A column is there after k steps exactly when the baseline or one of them gives it and none of them renames it
      away. */
  lemma ColumnsMean(h: History, k: nat, t: string, c: string)
    requires Sound(h) && k <= |h.steps|
    ensures c in ColumnsAt(h, k, t) <==>
      && ((t in h.base && c in h.base[t]) || exists i :: 0 <= i < k && Gives(h.steps[i], t, c))
      && forall i, a :: 0 <= i < k && 0 <= a < |h.steps[i].renames| ==>
        !(h.steps[i].renames[a].table == t && h.steps[i].renames[a].from == c)
    ensures TableAt(h, k, t) <==>
      || t in h.base
      || exists i, a :: 0 <= i < k && 0 <= a < |h.steps[i].tables| && h.steps[i].tables[a].name == t
  {
    ColumnsAre(h, k, t, c);
    forall i | 0 <= i < k
      ensures Gives(h.steps[i], t, c) <==> c in Born(h.steps[i], t)
      ensures c in Froms(h.steps[i], t) <==>
        exists a :: 0 <= a < |h.steps[i].renames| && h.steps[i].renames[a].table == t && h.steps[i].renames[a].from == c
    {
      GivesExactly(h.steps[i], t, c);
    }
    hide Sound, Born, Froms, Gives, ColumnsAt;
  }

  // ---------- the schema a dump is read under ----------

  /** The dump's level names the first steps of this build in order, and what it lacks may be absent. */
  predicate Loadable(h: History, declared: seq<string>) {
    && |declared| <= |h.steps|
    && (forall i :: 0 <= i < |declared| ==> declared[i] == h.steps[i].id)
    && forall i :: |declared| <= i < |h.steps| ==> h.steps[i].older && !h.steps[i].upgrade
  }

  method CheckDumpMigrations(h: History, declared: seq<string>) returns (ok: bool)
    ensures ok <==> Loadable(h, declared)
    ensures ok <==>
      && |declared| <= |h.steps|
      && forall i :: 0 <= i < |h.steps| ==>
        if i < |declared| then declared[i] == h.steps[i].id else h.steps[i].older && !h.steps[i].upgrade
  {
    if |declared| > |h.steps| { return false; }
    for i := 0 to |declared|
      invariant forall k :: 0 <= k < i ==> declared[k] == h.steps[k].id
    {
      if h.steps[i].id != declared[i] { return false; }
    }
    for i := |declared| to |h.steps|
      invariant forall k :: |declared| <= k < i ==> h.steps[k].older && !h.steps[k].upgrade
    {
      if h.steps[i].upgrade || !h.steps[i].older { return false; }
    }
    ok := true;
  }

  function Lookup(m: map<string, set<string>>, t: string): set<string> { if t in m then m[t] else {} }

  function Pairs(m: map<string, map<string, string>>, t: string): map<string, string> { if t in m then m[t] else map[] }

  method AddColumns(opt: map<string, set<string>>, m: Change) returns (r: map<string, set<string>>)
    ensures forall t :: Lookup(r, t) == Lookup(opt, t) + Added(m, t)
  {
    r := opt;
    for i := 0 to |m.columns|
      invariant forall t, c :: c in Lookup(r, t) <==>
        c in Lookup(opt, t) || exists k :: 0 <= k < i && m.columns[k] == Column(t, c)
    {
      var c := m.columns[i];
      r := r[c.table := Lookup(r, c.table) + {c.name}];
    }
    forall t ensures Lookup(r, t) == Lookup(opt, t) + Added(m, t) {
      forall c ensures c in Lookup(r, t) <==> c in Lookup(opt, t) + Added(m, t) {}
    }
  }

  /** What a dump of the first k steps may lack. */
  ghost predicate MayLack(h: History, k: nat, t: string, c: string) {
    exists i :: k <= i < |h.steps| && c in Added(h.steps[i], t)
  }

  lemma Carried(h: History, declared: seq<string>, i: nat)
    requires Loadable(h, declared) && DistinctSteps(h) && i < |h.steps|
    ensures h.steps[i].id in declared <==> i < |declared|
  {
    if i < |declared| { assert declared[i] in declared; }
  }

  method OptionalColumns(h: History, declared: seq<string>) returns (opt: map<string, set<string>>)
    requires Loadable(h, declared) && DistinctSteps(h)
    ensures forall t, c :: c in Lookup(opt, t) <==> MayLack(h, |declared|, t, c)
    ensures forall t, c :: t in opt && c in opt[t] <==>
      exists i :: |declared| <= i < |h.steps| && Column(t, c) in h.steps[i].columns
  {
    opt := map[];
    for i := 0 to |h.steps|
      invariant forall t, c :: c in Lookup(opt, t) <==> exists k :: |declared| <= k < i && c in Added(h.steps[k], t)
    {
      Carried(h, declared, i);
      if h.steps[i].id !in declared && h.steps[i].older { opt := AddColumns(opt, h.steps[i]); }
    }
    forall t, c ensures MayLack(h, |declared|, t, c) <==>
      exists i :: |declared| <= i < |h.steps| && Column(t, c) in h.steps[i].columns
    {
      LackMeans(h, |declared|, t, c);
    }
    hide MayLack;
    assert forall t, c :: c in Lookup(opt, t) <==> t in opt && c in opt[t];
  }

  lemma LackMeans(h: History, k: nat, t: string, c: string)
    ensures MayLack(h, k, t, c) <==> exists i :: k <= i < |h.steps| && Column(t, c) in h.steps[i].columns
  {
    forall i | 0 <= i < |h.steps| ensures c in Added(h.steps[i], t) <==> Column(t, c) in h.steps[i].columns {
      if Column(t, c) in h.steps[i].columns {
        var a :| 0 <= a < |h.steps[i].columns| && h.steps[i].columns[a] == Column(t, c);
      }
    }
    hide Added;
  }

  /** Some step after the first k renames the column. */
  predicate Renamed(h: History, k: nat, t: string, from: string, to: string) {
    exists i :: k <= i < |h.steps| && Rename(t, from, to) in h.steps[i].renames
  }

  method AddRenames(ren: map<string, map<string, string>>, m: Change) returns (r: map<string, map<string, string>>)
    ensures forall t, f :: f in Pairs(r, t) <==> f in Pairs(ren, t) || f in Froms(m, t)
    ensures forall t, f :: f in Pairs(r, t) ==>
      (f in Pairs(ren, t) && Pairs(r, t)[f] == Pairs(ren, t)[f]) || Rename(t, f, Pairs(r, t)[f]) in m.renames
  {
    r := ren;
    for i := 0 to |m.renames|
      invariant forall t, f :: f in Pairs(r, t) <==>
        f in Pairs(ren, t) || exists k :: 0 <= k < i && m.renames[k].table == t && m.renames[k].from == f
      invariant forall t, f :: f in Pairs(r, t) ==>
        (f in Pairs(ren, t) && Pairs(r, t)[f] == Pairs(ren, t)[f]) || Rename(t, f, Pairs(r, t)[f]) in m.renames
    {
      var x := m.renames[i];
      r := r[x.table := Pairs(r, x.table)[x.from := x.to]];
    }
  }

  method RenamesNotCarried(h: History, declared: seq<string>) returns (ren: map<string, map<string, string>>)
    requires Loadable(h, declared) && DistinctSteps(h)
    ensures forall t, f :: f in Pairs(ren, t) <==> exists i :: |declared| <= i < |h.steps| && f in Froms(h.steps[i], t)
    ensures forall t, f :: f in Pairs(ren, t) ==> Renamed(h, |declared|, t, f, Pairs(ren, t)[f])
    ensures forall t, f :: t in ren && f in ren[t] ==>
      exists i :: |declared| <= i < |h.steps| && Rename(t, f, ren[t][f]) in h.steps[i].renames
  {
    ren := map[];
    for i := 0 to |h.steps|
      invariant forall t, f :: f in Pairs(ren, t) <==> exists k :: |declared| <= k < i && f in Froms(h.steps[k], t)
      invariant forall t, f :: f in Pairs(ren, t) ==> Renamed(h, |declared|, t, f, Pairs(ren, t)[f])
    {
      Carried(h, declared, i);
      if h.steps[i].id !in declared { ren := AddRenames(ren, h.steps[i]); }
    }
    forall t, f | t in ren && f in ren[t]
      ensures exists i :: |declared| <= i < |h.steps| && Rename(t, f, ren[t][f]) in h.steps[i].renames
    {
      assert Renamed(h, |declared|, t, f, Pairs(ren, t)[f]);
    }
  }

  /** The schema as the database holds it, and what the dump's level excuses. */
  ghost predicate Reads(sc: Schema, h: History, k: nat)
    requires k <= |h.steps|
  {
    && (forall t :: t in sc.known <==> TableAt(h, |h.steps|, t))
    && (forall t :: t in sc.known ==> sc.known[t] == ColumnsAt(h, |h.steps|, t))
    && (forall t, c :: c in Optional(sc, t) <==> MayLack(h, k, t, c))
    && (forall t, f :: f in Renames(sc, t) <==> exists i :: k <= i < |h.steps| && f in Froms(h.steps[i], t))
    && (forall t, f :: f in Renames(sc, t) ==> Renamed(h, k, t, f, Renames(sc, t)[f]))
  }

  // ---------- which sections of an older dump fit ----------

  /** A renamed column was there at the dump's level and is gone now; its new name is the other way round,
      and is no column a dump may lack. */
  lemma RenameFacts(sc: Schema, h: History, k: nat, t: string, f: string)
    requires k <= |h.steps| && Sound(h) && Reads(sc, h, k) && f in Renames(sc, t)
    ensures var g := Renames(sc, t)[f]; var n := |h.steps|;
      && f in ColumnsAt(h, k, t) && f !in ColumnsAt(h, n, t)
      && g in ColumnsAt(h, n, t) && g !in ColumnsAt(h, k, t) && !MayLack(h, k, t, g)
  {
    var g, n := Renames(sc, t)[f], |h.steps|;
    assert Renamed(h, k, t, f, g);
    hide Sound, Reads, ColumnsAt, MayLack, Renames;
    var i :| k <= i < n && Rename(t, f, g) in h.steps[i].renames;
    Mentioned(h.steps[i], t, f, g);
    OldNameGoes(h, k, i, t, f);
    NewNameComes(h, k, i, t, g);
  }

  lemma OldNameGoes(h: History, k: nat, i: nat, t: string, f: string)
    requires k <= i < |h.steps| && Sound(h) && f in Froms(h.steps[i], t)
    ensures f in ColumnsAt(h, k, t) && f !in ColumnsAt(h, |h.steps|, t)
  {
    assert UsedOnce(h, t, f);
    assert f in Base(h, t) && forall j :: 0 <= j < i ==> f !in Froms(h.steps[j], t);
    hide UsedOnce, Froms, Base;
    ColumnsAre(h, k, t, f);
    ColumnsAre(h, |h.steps|, t, f);
    hide Sound, ColumnsAt;
  }

  lemma NewNameComes(h: History, k: nat, i: nat, t: string, g: string)
    requires k <= i < |h.steps| && Sound(h) && g in Targets(h.steps[i], t)
    ensures g in ColumnsAt(h, |h.steps|, t) && g !in ColumnsAt(h, k, t) && !MayLack(h, k, t, g)
  {
    assert g in Born(h.steps[i], t);
    OnlyTarget(h, i, t, g);
    ColumnsAre(h, k, t, g);
    ColumnsAre(h, |h.steps|, t, g);
    hide Sound, ColumnsAt, Born, Froms, Added, Targets, Base;
  }

  lemma Mentioned(m: Change, t: string, f: string, g: string)
    requires Rename(t, f, g) in m.renames
    ensures f in Froms(m, t) && g in Targets(m, t) && g in Born(m, t)
  {
    var a :| 0 <= a < |m.renames| && m.renames[a] == Rename(t, f, g);
  }

  lemma AddedIsBorn(m: Change, t: string, g: string)
    ensures g in Added(m, t) ==> g in Born(m, t)
  {
  }

  lemma OnlyTarget(h: History, i: nat, t: string, g: string)
    requires Sound(h) && i < |h.steps| && g in Targets(h.steps[i], t)
    ensures forall j :: 0 <= j < |h.steps| ==> g !in Added(h.steps[j], t)
    ensures forall j :: 0 <= j < |h.steps| && g in Born(h.steps[j], t) ==> j == i
    ensures g !in Base(h, t) && forall j :: 0 <= j < |h.steps| ==> g !in Froms(h.steps[j], t)
  {
    assert g in Born(h.steps[i], t) && UsedOnce(h, t, g);
    forall j | 0 <= j < |h.steps| ensures g !in Added(h.steps[j], t) {
      AddedIsBorn(h.steps[j], t, g);
    }
  }

  /** Two columns of a table never get one name. */
  lemma TargetsApart(sc: Schema, h: History, k: nat, t: string, f: string, e: string)
    requires k <= |h.steps| && Sound(h) && Reads(sc, h, k) && f in Renames(sc, t) && e in Renames(sc, t)
    requires Renames(sc, t)[f] == Renames(sc, t)[e]
    ensures f == e
  {
    var g, n := Renames(sc, t)[f], |h.steps|;
    assert Renamed(h, k, t, f, g) && Renamed(h, k, t, e, g);
    var i :| k <= i < n && Rename(t, f, g) in h.steps[i].renames;
    var j :| k <= j < n && Rename(t, e, g) in h.steps[j].renames;
    Mentioned(h.steps[i], t, f, g);
    Mentioned(h.steps[j], t, e, g);
    OnlyTarget(h, i, t, g);
    assert PairsApart(h.steps[i].renames);
  }

  /** A column of the dump's level has a name now: its own, or that of its rename. */
  lemma NamedNow(sc: Schema, h: History, k: nat, t: string, c: string)
    requires k <= |h.steps| && Sound(h) && Reads(sc, h, k) && c in ColumnsAt(h, k, t)
    ensures NewName(sc, t, c) in ColumnsAt(h, |h.steps|, t) && !MayLack(h, k, t, NewName(sc, t, c))
  {
    if c in Renames(sc, t) {
      RenameFacts(sc, h, k, t, c);
    } else {
      ColumnsAre(h, k, t, c);
      ColumnsAre(h, |h.steps|, t, c);
      NotLater(h, k, t, c);
      hide ColumnsAt, Froms, Born, Renames;
    }
  }

  lemma NotLater(h: History, k: nat, t: string, c: string)
    requires Sound(h) && k <= |h.steps| && c in ColumnsAt(h, k, t)
    ensures forall i :: k <= i < |h.steps| ==> c !in Born(h.steps[i], t)
    ensures !MayLack(h, k, t, c)
  {
    ColumnsAre(h, k, t, c);
    assert UsedOnce(h, t, c);
    hide ColumnsAt, Froms, Created, Targets;
    forall i | k <= i < |h.steps| ensures c !in Born(h.steps[i], t) && c !in Added(h.steps[i], t) {}
  }

  /** A column of this build is one of the dump's level under its present name, or one a dump may lack. */
  lemma KnownNow(sc: Schema, h: History, k: nat, t: string, c: string)
    requires k <= |h.steps| && Sound(h) && Reads(sc, h, k) && TableAt(h, k, t) && c in ColumnsAt(h, |h.steps|, t)
    ensures MayLack(h, k, t, c) || exists b :: b in ColumnsAt(h, k, t) && NewName(sc, t, b) == c
  {
    var n := |h.steps|;
    ColumnsAre(h, n, t, c);
    ColumnsAre(h, k, t, c);
    assert UsedOnce(h, t, c) && CreatedOnce(h, t);
    if c in ColumnsAt(h, k, t) {
      if c in Renames(sc, t) { RenameFacts(sc, h, k, t, c); }
      assert NewName(sc, t, c) == c;
    } else {
      var i :| k <= i < n && c in Born(h.steps[i], t);
      if c in Created(h.steps[i], t) {
        assert Creates(h.steps[i], t);
        assert false;
      }
      if c in Targets(h.steps[i], t) {
        var a :| 0 <= a < |h.steps[i].renames| && h.steps[i].renames[a].table == t && h.steps[i].renames[a].to == c;
        var f := h.steps[i].renames[a].from;
        NamedBy(sc, h, k, t, f, i, c);
      }
    }
  }

  lemma NamedBy(sc: Schema, h: History, k: nat, t: string, f: string, i: nat, c: string)
    requires k <= i < |h.steps| && Sound(h) && Reads(sc, h, k) && Rename(t, f, c) in h.steps[i].renames
    ensures f in ColumnsAt(h, k, t) && NewName(sc, t, f) == c
  {
    Mentioned(h.steps[i], t, f, c);
    assert f in Renames(sc, t);
    var g := Renames(sc, t)[f];
    assert Renamed(h, k, t, f, g);
    RenameFacts(sc, h, k, t, f);
    hide Reads;
    var j :| k <= j < |h.steps| && Rename(t, f, g) in h.steps[j].renames;
    Mentioned(h.steps[j], t, f, g);
    SameRename(h, i, j, t, f, c, g);
  }

  lemma SameRename(h: History, i: nat, j: nat, t: string, f: string, c: string, g: string)
    requires Sound(h) && i < |h.steps| && j < |h.steps|
    requires Rename(t, f, c) in h.steps[i].renames && Rename(t, f, g) in h.steps[j].renames
    ensures c == g
  {
    Mentioned(h.steps[i], t, f, c);
    Mentioned(h.steps[j], t, f, g);
    assert UsedOnce(h, t, f);
    assert i == j;
    assert PairsApart(h.steps[i].renames);
    hide Sound, Froms, Targets, Born;
  }

  lemma LaterNow(sc: Schema, h: History, k: nat, t: string, c: string)
    requires k <= |h.steps| && Sound(h) && Reads(sc, h, k) && MayLack(h, k, t, c)
    ensures NewName(sc, t, c) == c && c in ColumnsAt(h, |h.steps|, t)
  {
    var i :| k <= i < |h.steps| && c in Added(h.steps[i], t);
    assert c in Born(h.steps[i], t);
    ColumnsAre(h, |h.steps|, t, c);
    assert UsedOnce(h, t, c);
    hide ColumnsAt, Created, Targets;
  }

  /** Every column of the level, and beyond them only columns that later steps add. */
  ghost predicate Matches(h: History, k: nat, t: string, cols: seq<string>)
    requires k <= |h.steps|
  {
    && (forall c :: c in ColumnsAt(h, k, t) ==> c in cols)
    && forall c :: c in cols ==> c in ColumnsAt(h, k, t) || MayLack(h, k, t, c)
  }

  /** What reading a table of the dump's level meets in the live database. */
  lemma LiveTable(sc: Schema, h: History, k: nat, t: string)
    requires k <= |h.steps| && Reads(sc, h, k) && TableAt(h, k, t)
    ensures t in sc.known && sc.known[t] == ColumnsAt(h, |h.steps|, t)
    ensures forall c :: c in Optional(sc, t) <==> MayLack(h, k, t, c)
  {
    assert TableAt(h, |h.steps|, t);
    hide ColumnsAt, MayLack, Froms, Renamed;
  }

  /** The three checks of a section, over the names it reads the columns under. */
  lemma FitsMeans(sc: Schema, t: string, cols: seq<string>)
    ensures SectionFits(sc, Line(t, cols, [])) <==>
      && (forall c :: c in Renames(sc, t) ==> Renames(sc, t)[c] !in cols)
      && t in sc.known
      && (forall b :: b in cols ==> NewName(sc, t, b) in sc.known[t])
      && forall c :: c in sc.known[t] ==> Found(sc, t, cols, c) || c in Optional(sc, t)
  {
    var names := NewNames(sc, t, cols);
    hide NewName, Renames, Optional;
    assert forall i :: 0 <= i < |cols| ==> names[i] == NewName(sc, t, cols[i]) && cols[i] in cols;
    forall c ensures Found(sc, t, cols, c) <==> c in names {
      if c in names {
        var i :| 0 <= i < |names| && names[i] == c;
        assert NewName(sc, t, cols[i]) == c;
      }
    }
  }

  ghost predicate Found(sc: Schema, t: string, cols: seq<string>, c: string) {
    exists b :: b in cols && NewName(sc, t, b) == c
  }

  lemma NeededIsThere(sc: Schema, h: History, k: nat, t: string, cols: seq<string>, c: string)
    requires k <= |h.steps| && Sound(h) && Reads(sc, h, k) && TableAt(h, k, t)
    requires SectionFits(sc, Line(t, cols, [])) && c in ColumnsAt(h, k, t)
    ensures c in cols
  {
    hide Sound, Reads, TableAt, ColumnsAt, MayLack, SectionFits, Renames, Optional;
    LiveTable(sc, h, k, t);
    FitsMeans(sc, t, cols);
    var g := NewName(sc, t, c);
    NamedNow(sc, h, k, t, c);
    var b :| b in cols && NewName(sc, t, b) == g;
    if b in Renames(sc, t) { RenameFacts(sc, h, k, t, b); }
    NamesMeet(sc, h, k, t, b, c);
  }

  lemma NamesMeet(sc: Schema, h: History, k: nat, t: string, b: string, c: string)
    requires k <= |h.steps| && Sound(h) && Reads(sc, h, k) && NewName(sc, t, b) == NewName(sc, t, c)
    ensures b == c || (c in Renames(sc, t) && b == Renames(sc, t)[c]) || (b in Renames(sc, t) && c == Renames(sc, t)[b])
  {
    hide Sound, Reads, Renames;
    if b in Renames(sc, t) && c in Renames(sc, t) { TargetsApart(sc, h, k, t, b, c); }
  }

  lemma PresentIsKnown(sc: Schema, h: History, k: nat, t: string, cols: seq<string>, c: string)
    requires k <= |h.steps| && Sound(h) && Reads(sc, h, k) && TableAt(h, k, t)
    requires SectionFits(sc, Line(t, cols, [])) && c in cols
    ensures c in ColumnsAt(h, k, t) || MayLack(h, k, t, c)
  {
    hide Sound, Reads, TableAt, ColumnsAt, MayLack, SectionFits, Renames, Optional;
    LiveTable(sc, h, k, t);
    FitsMeans(sc, t, cols);
    if c in Renames(sc, t) {
      RenameFacts(sc, h, k, t, c);
    } else {
      KnownNow(sc, h, k, t, c);
    }
  }

  lemma EnoughFits(sc: Schema, h: History, k: nat, t: string, cols: seq<string>)
    requires k <= |h.steps| && Sound(h) && Reads(sc, h, k) && TableAt(h, k, t) && Matches(h, k, t, cols)
    ensures SectionFits(sc, Line(t, cols, []))
  {
    hide Sound, Reads, TableAt, ColumnsAt, MayLack, SectionFits, Renames, Optional, NewName;
    LiveTable(sc, h, k, t);
    FitsMeans(sc, t, cols);
    forall f | f in Renames(sc, t) ensures Renames(sc, t)[f] !in cols { RenameFacts(sc, h, k, t, f); }
    forall b | b in cols ensures NewName(sc, t, b) in sc.known[t] {
      if b in ColumnsAt(h, k, t) { NamedNow(sc, h, k, t, b); } else { LaterNow(sc, h, k, t, b); }
    }
    forall c | c in sc.known[t] ensures Found(sc, t, cols, c) || c in Optional(sc, t) { KnownNow(sc, h, k, t, c); }
  }

  /** A section of a table the dump's level had fits exactly when it has every column of that level, and
      beyond them only columns that later steps add. */
  lemma LevelFits(sc: Schema, h: History, k: nat, t: string, cols: seq<string>)
    requires k <= |h.steps| && Sound(h) && Reads(sc, h, k) && TableAt(h, k, t)
    ensures SectionFits(sc, Line(t, cols, [])) <==> Matches(h, k, t, cols)
  {
    hide Sound, Reads, TableAt, ColumnsAt, MayLack, SectionFits;
    if SectionFits(sc, Line(t, cols, [])) {
      forall c | c in ColumnsAt(h, k, t) ensures c in cols { NeededIsThere(sc, h, k, t, cols, c); }
      forall c | c in cols ensures c in ColumnsAt(h, k, t) || MayLack(h, k, t, c) {
        PresentIsKnown(sc, h, k, t, cols, c);
      }
    }
    if Matches(h, k, t, cols) { EnoughFits(sc, h, k, t, cols); }
  }

  // ---------- the dump of an earlier release ----------

  /** The tables as a release with the first k steps dumps them. */
  ghost predicate OfLevel(h: History, k: nat, ts: seq<Table>)
    requires k <= |h.steps|
  {
    && (forall i :: 0 <= i < |ts| ==> TableOk(ts[i]) && TableAt(h, k, ts[i].name)) && DistinctNames(ts)
    && forall i, c :: 0 <= i < |ts| ==> (c in ts[i].columns <==> c in ColumnsAt(h, k, ts[i].name))
  }

  /** Every dump of an earlier release whose later steps allow it is accepted and restored row for row. */
  lemma OlderDumpRestores(sc: Schema, h: History, declared: seq<string>, ts: seq<Table>)
    requires Sound(h) && Loadable(h, declared) && Reads(sc, h, |declared|) && OfLevel(h, |declared|, ts)
    ensures Accepted(sc, TableNames(ts), Dump(ts))
    ensures Run(sc, Dump(ts)).Some? && Run(sc, Dump(ts)).value.loaded == Contents(sc, ts)
  {
    forall i | 0 <= i < |ts| ensures SectionFits(sc, Line(ts[i].name, ts[i].columns, [])) {
      LevelFits(sc, h, |declared|, ts[i].name, ts[i].columns);
    }
    hide SectionFits, Accepted, Run, Dump, Contents, Reads, Sound, Loadable, ColumnsAt, TableAt, TableOk;
    DumpRestores(sc, ts);
    DumpAccepted(sc, ts);
  }

  lemma NamesApart(sc: Schema, h: History, k: nat, t: string, b: string, c: string)
    requires k <= |h.steps| && Sound(h) && Reads(sc, h, k) && b in ColumnsAt(h, k, t) && c in ColumnsAt(h, k, t)
    ensures NewName(sc, t, b) == NewName(sc, t, c) ==> b == c
  {
    if b in Renames(sc, t) { RenameFacts(sc, h, k, t, b); }
    if c in Renames(sc, t) { RenameFacts(sc, h, k, t, c); }
    hide Sound, Reads, ColumnsAt, Renames;
    if b in Renames(sc, t) && c in Renames(sc, t) && NewName(sc, t, b) == NewName(sc, t, c) {
      TargetsApart(sc, h, k, t, b, c);
    }
  }

  /** In the restored row every value of the dump stands under its column's present name. */
  lemma ValueKept(sc: Schema, h: History, k: nat, t: Table, r: nat, j: nat)
    requires k <= |h.steps| && Sound(h) && Reads(sc, h, k) && TableOk(t) && r < |t.rows| && j < |t.columns|
    requires forall c :: c in t.columns ==> c in ColumnsAt(h, k, t.name)
    requires forall a, b :: 0 <= a < b < |t.columns| ==> t.columns[a] != t.columns[b]
    ensures var cells, name := Content(sc, t)[r], NewName(sc, t.name, t.columns[j]);
      RowFits(t, t.rows[r]) && name in cells && cells[name] == t.rows[r][j]
  {
    assert RowFits(t, t.rows[r]);
    var names := NewNames(sc, t.name, t.columns);
    forall a, b | 0 <= a < b < |names| ensures names[a] != names[b] {
      assert t.columns[a] in t.columns && t.columns[b] in t.columns;
      NamesApart(sc, h, k, t.name, t.columns[a], t.columns[b]);
    }
    hide Sound, Reads, NewNames, TableOk, RowFits;
    CellFound(names, t.rows[r], j);
  }

  lemma CellFound(names: seq<string>, row: seq<Value>, j: nat)
    requires |names| == |row| && j < |names| && forall a, b :: 0 <= a < b < |names| ==> names[a] != names[b]
    ensures names[j] in CellsOf(names, row) && CellsOf(names, row)[names[j]] == row[j]
  {
  }

  // ---------- the whole restore ----------

  datatype Header = Header(format: string, version: int, generation: int, tables: seq<string>, migrations: seq<string>)

  predicate HeaderOk(h: History, x: Header) {
    && x.format == FORMAT && x.version <= FORMAT_VERSION && x.generation == SCHEMA_BASELINE
    && Loadable(h, x.migrations)
    && forall i, a :: 0 <= i < |x.migrations| && 0 <= a < |h.steps[i].tables| ==> h.steps[i].tables[a].name in x.tables
  }

  method CheckTables(h: History, x: Header) returns (ok: bool)
    requires |x.migrations| <= |h.steps|
    ensures ok <==> forall i, a :: 0 <= i < |x.migrations| && 0 <= a < |h.steps[i].tables| ==>
      h.steps[i].tables[a].name in x.tables
  {
    for i := 0 to |x.migrations|
      invariant forall k, a :: 0 <= k < i && 0 <= a < |h.steps[k].tables| ==> h.steps[k].tables[a].name in x.tables
    {
      for a := 0 to |h.steps[i].tables|
        invariant forall b :: 0 <= b < a ==> h.steps[i].tables[b].name in x.tables
      {
        if h.steps[i].tables[a].name !in x.tables { return false; }
      }
    }
    ok := true;
  }

  /** known: the columns of the live database, which has taken every step of this build. */
  ghost predicate UpToDate(h: History, known: map<string, set<string>>) {
    && (forall t :: t in known <==> TableAt(h, |h.steps|, t))
    && forall t :: t in known ==> known[t] == ColumnsAt(h, |h.steps|, t)
  }

  lemma SchemaReads(h: History, k: nat, known: map<string, set<string>>, opt: map<string, set<string>>,
                    ren: map<string, map<string, string>>)
    requires k <= |h.steps| && UpToDate(h, known)
    requires forall t, c :: c in Lookup(opt, t) <==> MayLack(h, k, t, c)
    requires forall t, f :: f in Pairs(ren, t) <==> exists i :: k <= i < |h.steps| && f in Froms(h.steps[i], t)
    requires forall t, f :: f in Pairs(ren, t) ==> Renamed(h, k, t, f, Pairs(ren, t)[f])
    ensures Reads(Schema(known, opt, ren), h, k)
  {
    var sc := Schema(known, opt, ren);
    assert forall t :: Optional(sc, t) == Lookup(opt, t) && Renames(sc, t) == Pairs(ren, t);
    hide MayLack, Renamed, TableAt, ColumnsAt, Froms, Optional, Renames, Lookup, Pairs;
  }

  /** Accepts a dump exactly when its header names a level this build can load and its body is well formed
      for that level; only then, and only when forced, are the tables replaced. */
  method Restore(target: Target, h: History, known: map<string, set<string>>, x: Header, lines: seq<Line>, force: bool)
    returns (report: Option<Report>, sc: Schema)
    requires DistinctSteps(h) && UpToDate(h, known)
    modifies target
    ensures HeaderOk(h, x) ==> Reads(sc, h, |x.migrations|)
    ensures report.Some? <==> HeaderOk(h, x) && Accepted(sc, x.tables, lines)
    ensures report.Some? <==>
      && x.format == "report-portal-backup" && x.version <= 1 && x.generation == 2 && Loadable(h, x.migrations)
      && (forall i, a :: 0 <= i < |x.migrations| && 0 <= a < |h.steps[i].tables| ==>
          h.steps[i].tables[a].name in x.tables)
      && Accepted(sc, x.tables, lines)
    ensures report.Some? ==> Run(sc, lines).Some? && report.value.total == RowLines(lines)
    ensures force && report.Some? ==>
      sc.known == known && target.tables == Emptied(sc) + Run(sc, lines).value.loaded
    ensures !force || report.None? ==> target.tables == old(target.tables)
  {
    hide Accepted, Run, RowLines, Emptied, MayLack, Renamed, Reads, UpToDate, DistinctSteps, Froms;
    report, sc := None, Schema(known, map[], map[]);
    if x.format != FORMAT || x.version > FORMAT_VERSION || x.generation != SCHEMA_BASELINE { return; }
    var level := CheckDumpMigrations(h, x.migrations);
    if !level { return; }
    var complete := CheckTables(h, x);
    if !complete { return; }
    var opt := OptionalColumns(h, x.migrations);
    var ren := RenamesNotCarried(h, x.migrations);
    sc := Schema(known, opt, ren);
    SchemaReads(h, |x.migrations|, known, opt, ren);
    report := target.RestoreStream(sc, x.tables, lines, force);
  }
}
