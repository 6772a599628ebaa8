/** The latest-per-symbol condition: which row the grouped query and the fold over its answer mark. */
module ExportLatest {
  import opened Options
  import opened SqlLogic
  import opened ExportFilter
  import opened ExportCompile
  import opened ExportPlan
  import opened ExportWire
  import opened FiniteSets
  import TextOrder

  datatype Set = Set(symbol: string, madeAt: string, id: int)

  /** Made later, or at the same instant with a higher id. */
  predicate Later(a: Set, b: Set) {
    TextOrder.Less(b.madeAt, a.madeAt) || (a.madeAt == b.madeAt && a.id > b.id)
  }

  lemma LaterTotal(a: Set, b: Set)
    requires !Later(a, b) && !Later(b, a)
    ensures a.madeAt == b.madeAt && a.id == b.id
  {
    TextOrder.Total(a.madeAt, b.madeAt);
  }

  function Mark(newest: map<string, Newest>, symbol: string): Set
    requires symbol in newest
  {
    Set(symbol, newest[symbol].madeAt, newest[symbol].id)
  }

  /** The map holds, for exactly the symbols listed, a listed set that no listed set of the symbol is
      later than. */
  predicate HoldsNewest(groups: seq<Set>, newest: map<string, Newest>) {
    && (forall i :: 0 <= i < |groups| ==>
      groups[i].symbol in newest && !Later(groups[i], Mark(newest, groups[i].symbol)))
    && (forall s :: s in newest ==> Mark(newest, s) in groups)
  }

  /** The map holds a listed set for exactly the symbols listed, and no listed set of a symbol was made later
      than the one it holds, or at the same instant with a higher id. */
  method LoadNewest(groups: seq<Set>) returns (newest: map<string, Newest>)
    ensures HoldsNewest(groups, newest)
    ensures forall s :: s in newest ==> Set(s, newest[s].madeAt, newest[s].id) in groups
    ensures forall i :: 0 <= i < |groups| ==>
      && groups[i].symbol in newest
      && !TextOrder.Less(newest[groups[i].symbol].madeAt, groups[i].madeAt)
      && (groups[i].madeAt == newest[groups[i].symbol].madeAt ==> groups[i].id <= newest[groups[i].symbol].id)
  {
    newest := map[];
    var i := 0;
    while i < |groups|
      invariant 0 <= i <= |groups|
      invariant HoldsNewest(groups[..i], newest)
    {
      var g := groups[i];
      ghost var before := newest;
      if g.symbol !in newest || TextOrder.Less(newest[g.symbol].madeAt, g.madeAt)
         || (g.madeAt == newest[g.symbol].madeAt && g.id > newest[g.symbol].id) {
        newest := newest[g.symbol := Newest(g.madeAt, g.id)];
      }
      FoldKeeps(groups, i, before, newest);
      i := i + 1;
    }
    assert groups[..i] == groups;
    forall s | s in newest ensures Set(s, newest[s].madeAt, newest[s].id) in groups {
      assert Mark(newest, s) in groups;
    }
  }

  lemma FoldKeeps(groups: seq<Set>, i: nat, before: map<string, Newest>, after: map<string, Newest>)
    requires i < |groups| && HoldsNewest(groups[..i], before)
    requires var g := groups[i];
      var newer := g.symbol !in before || Later(g, Mark(before, g.symbol));
      after == if newer then before[g.symbol := Newest(g.madeAt, g.id)] else before
    ensures HoldsNewest(groups[..i + 1], after)
  {
    var g := groups[i];
    TextOrder.Irreflexive(g.madeAt);
    forall k | 0 <= k < i + 1
      ensures groups[k].symbol in after && !Later(groups[k], Mark(after, groups[k].symbol))
    {
      if k < i {
        assert groups[..i][k] == groups[k];
        if groups[k].symbol == g.symbol && after != before {
          if Later(groups[k], g) { TakesOver(groups[k], g, Mark(before, g.symbol)); }
        }
      }
    }
    forall s | s in after ensures Mark(after, s) in groups[..i + 1] {
      if s in before && Mark(after, s) == Mark(before, s) {
        assert Mark(before, s) in groups[..i];
      } else {
        assert groups[..i + 1][i] == Mark(after, s);
      }
    }
  }

  lemma TakesOver(k: Set, g: Set, cur: Set)
    requires Later(g, cur) && !Later(k, cur)
    ensures !Later(k, g)
  {
    if Later(k, g) {
      TextOrder.Asymmetric(g.madeAt, cur.madeAt);
      TextOrder.Irreflexive(g.madeAt);
      assert !Later(cur, g);
      if TextOrder.Less(g.madeAt, k.madeAt) && TextOrder.Less(cur.madeAt, g.madeAt) {
        TextOrder.Transitive(cur.madeAt, g.madeAt, k.madeAt);
      }
    }
  }

  /** The fold does not depend on the order, or the repetition, of what it folds. */
  lemma OrderIndependent(a: seq<Set>, b: seq<Set>, m: map<string, Newest>, n: map<string, Newest>)
    requires forall x :: x in a <==> x in b
    requires HoldsNewest(a, m) && HoldsNewest(b, n)
    ensures m == n
  {
    Covers(a, b, m, n);
    Covers(b, a, n, m);
    forall s | s in m ensures s in n && m[s] == n[s] {
      LaterTotal(Mark(m, s), Mark(n, s));
    }
    SameMap(m, n);
  }

  lemma Covers(a: seq<Set>, b: seq<Set>, m: map<string, Newest>, n: map<string, Newest>)
    requires forall x :: x in a <==> x in b
    requires HoldsNewest(a, m) && HoldsNewest(b, n)
    ensures forall s :: s in m ==> s in n && !Later(Mark(m, s), Mark(n, s))
  {
    forall s | s in m ensures s in n && !Later(Mark(m, s), Mark(n, s)) {
      assert Mark(m, s) in b;
      var i :| 0 <= i < |b| && b[i] == Mark(m, s);
    }
  }

  // ---------- the grouped query ----------

  /** The answer of the query grouped by symbol and instant: the highest id of each group of candidates. */
  predicate Grouped(cands: set<Set>, groups: seq<Set>) {
    && (forall i :: 0 <= i < |groups| ==> groups[i] in cands)
    && (forall c {:trigger Topped(groups, c)} :: c in cands ==> Topped(groups, c))
  }

  /** The group of the symbol and instant is there, with no lower id. */
  predicate Topped(groups: seq<Set>, c: Set) {
    exists i ::
      0 <= i < |groups| && groups[i].symbol == c.symbol && groups[i].madeAt == c.madeAt && c.id <= groups[i].id
  }

  /** No candidate of the symbol is later. */
  predicate NewestAmong(cands: set<Set>, c: Set) {
    c in cands && forall d :: d in cands && d.symbol == c.symbol ==> !Later(d, c)
  }

  lemma LowerInGroup(d: Set, g: Set, m: Set)
    requires g.madeAt == d.madeAt && d.id <= g.id && !Later(g, m)
    ensures !Later(d, m)
  {
  }

  lemma MarkListed(cands: set<Set>, groups: seq<Set>, newest: map<string, Newest>, s: string)
    requires Grouped(cands, groups) && HoldsNewest(groups, newest) && s in newest
    ensures Mark(newest, s) in cands
  {
    hide Later;
    var m := Mark(newest, s);
    assert m in groups;
    var k :| 0 <= k < |groups| && groups[k] == m;
    assert groups[k] in cands;
  }

  lemma MarkNotBeaten(cands: set<Set>, groups: seq<Set>, newest: map<string, Newest>, d: Set)
    requires Grouped(cands, groups) && HoldsNewest(groups, newest) && d in cands && d.symbol in newest
    ensures !Later(d, Mark(newest, d.symbol))
  {
    hide Later;
    assert Topped(groups, d);
    var i :| 0 <= i < |groups| && groups[i].symbol == d.symbol && groups[i].madeAt == d.madeAt && d.id <= groups[i].id;
    assert !Later(groups[i], Mark(newest, groups[i].symbol));
    LowerInGroup(d, groups[i], Mark(newest, d.symbol));
  }

  lemma MarkIsNewest(cands: set<Set>, groups: seq<Set>, newest: map<string, Newest>, s: string)
    requires Grouped(cands, groups) && HoldsNewest(groups, newest) && s in newest
    ensures NewestAmong(cands, Mark(newest, s))
  {
    MarkListed(cands, groups, newest, s);
    hide Later, Grouped, HoldsNewest;
    forall d | d in cands && d.symbol == s ensures !Later(d, Mark(newest, s)) {
      MarkNotBeaten(cands, groups, newest, d);
    }
  }

  lemma NewestUnique(cands: set<Set>, c: Set, d: Set)
    requires NewestAmong(cands, c) && NewestAmong(cands, d) && c.symbol == d.symbol
    ensures c == d
  {
    hide Later;
    assert !Later(c, d) && !Later(d, c);
    LaterTotal(c, d);
  }

  lemma MarkedSymbol(cands: set<Set>, groups: seq<Set>, newest: map<string, Newest>, c: Set)
    requires Grouped(cands, groups) && HoldsNewest(groups, newest) && c in cands
    ensures c.symbol in newest
  {
    hide Later;
    assert Topped(groups, c);
    var i :| 0 <= i < |groups| && groups[i].symbol == c.symbol && groups[i].madeAt == c.madeAt && c.id <= groups[i].id;
    assert groups[i].symbol in newest;
  }

  lemma GroupsDecide(cands: set<Set>, groups: seq<Set>, newest: map<string, Newest>, c: Set)
    requires Grouped(cands, groups) && HoldsNewest(groups, newest)
    ensures c.symbol in newest && Mark(newest, c.symbol) == c <==> NewestAmong(cands, c)
  {
    if c in cands { MarkedSymbol(cands, groups, newest, c); }
    if c.symbol in newest {
      MarkIsNewest(cands, groups, newest, c.symbol);
      if NewestAmong(cands, c) { NewestUnique(cands, c, Mark(newest, c.symbol)); }
    }
    hide Grouped, HoldsNewest, Later;
  }

  /** Every symbol with a candidate has exactly one marked candidate. */
  lemma OnePerSymbol(cands: set<Set>, groups: seq<Set>, newest: map<string, Newest>, c: Set)
    requires Grouped(cands, groups) && HoldsNewest(groups, newest) && c in cands
    ensures c.symbol in newest && NewestAmong(cands, Mark(newest, c.symbol))
    ensures forall d :: NewestAmong(cands, d) && d.symbol == c.symbol ==> d == Mark(newest, c.symbol)
  {
    MarkedSymbol(cands, groups, newest, c);
    MarkIsNewest(cands, groups, newest, c.symbol);
    hide Grouped, HoldsNewest, Later, NewestAmong;
    forall d | NewestAmong(cands, d) && d.symbol == c.symbol ensures d == Mark(newest, c.symbol) {
      NewestUnique(cands, d, Mark(newest, c.symbol));
    }
  }

  /** Grouping loses nothing: a list of all candidates is an answer of the query too, and the fold over any answer
      marks what the fold over all candidates marks. */
  lemma GroupingLosesNothing(cands: set<Set>, all: seq<Set>, groups: seq<Set>, m: map<string, Newest>,
                             n: map<string, Newest>)
    requires forall c :: c in cands <==> c in all
    requires Grouped(cands, groups) && HoldsNewest(groups, m) && HoldsNewest(all, n)
    ensures Grouped(cands, all) && m == n
  {
    forall c | c in cands ensures Topped(all, c) { var i :| 0 <= i < |all| && all[i] == c; }
    hide Later, HoldsNewest, Topped, NewestAmong;
    forall s ensures s in m <==> s in n {
      if s in m { MarkListed(cands, groups, m, s); MarkedSymbol(cands, all, n, Mark(m, s)); }
      if s in n { MarkListed(cands, all, n, s); MarkedSymbol(cands, groups, m, Mark(n, s)); }
    }
    forall s | s in m ensures m[s] == n[s] {
      MarkIsNewest(cands, groups, m, s);
      MarkIsNewest(cands, all, n, s);
      NewestUnique(cands, Mark(m, s), Mark(n, s));
    }
    SameMap(m, n);
  }

  // ---------- together with the filter ----------

  function SetOf(row: Row): Set { Set(TextOf(row, SYMBOL), TextOf(row, MADE_AT), NumberOf(row, SET_ID)) }

  /** Rows of the source that the filter accepts with its derived conditions taken as true. */
  predicate Candidate(src: Source, filter: Wire, rows: set<Row>, base: Row -> bool, row: Row) {
    row in rows && base(row) && WireSays(src, filter, row, Answers(false, false), true)
  }

  predicate NoVersion(src: Source) { forall f :: f in src.fields ==> !src.fields[f].kind.VersionKind? }

  /** The neutral text is plain SQL, so it selects exactly the candidates. */
  lemma {:induction false} NeutralPlain(src: Source, n: Node, base: nat)
    requires Fits(src, n) && NoVersion(src) && Compile(src, n, true, base).Some?
    ensures AllPlain(Compile(src, n, true, base).value.leaves)
    decreases n, 1
  {
    match n
    case Cond(_, _, _) =>
    case Group(_, items) => if items != [] { NeutralPlainAll(src, items, base); }
  }

  lemma {:induction false} NeutralPlainAll(src: Source, items: seq<Node>, base: nat)
    requires forall i :: 0 <= i < |items| ==> Fits(src, items[i])
    requires NoVersion(src) && CompileAll(src, items, true, base).Some?
    ensures AllPlain(CompileAll(src, items, true, base).value.leaves)
    decreases items, 0
  {
    if items != [] {
      NeutralPlain(src, items[0], base);
      NeutralPlainAll(src, items[1..], base + |Compile(src, items[0], true, base).value.leaves|);
    }
  }

  lemma CandidateText(src: Source, filter: Wire, c: Compiled, row: Row)
    requires SourceOk(src) && NoVersion(src) && Plannable(src, filter) && CompiledTo(src, filter, true, c)
    requires RowOk(src, row, Answers(false, false))
    ensures |c.args| == Marks(c.sql)
    ensures Eval(c.sql, c.args, row) == True <==> WireSays(src, filter, row, Answers(false, false), true)
  {
    NeutralPlain(src, ToNode(Normalize(filter)), 0);
    CompiledSays(src, filter, true, c, row, Answers(false, false));
  }

  /** The candidates as the query sees them: rows the neutral text keeps. */
  function Selected(c: Compiled, rows: set<Row>, base: Row -> bool): set<Set> {
    set r | r in rows && base(r) && |c.args| == Marks(c.sql) && Eval(c.sql, c.args, r) == True :: SetOf(r)
  }

  /** Ids are primary keys, and columns hold what their kind stores. */
  predicate TableOk(src: Source, rows: set<Row>) {
    && (forall r, q :: r in rows && q in rows && SetOf(r).id == SetOf(q).id ==> r == q)
    && (forall r :: r in rows ==> RowOk(src, r, Answers(false, false)))
  }

  /** The row is the newest among the rows of its symbol that match the rest of the filter: it matches itself, no
      matching row of its symbol was made later, and of those made at the same instant none has a higher id. */
  predicate NewestCandidate(src: Source, filter: Wire, rows: set<Row>, base: Row -> bool, row: Row) {
    && Candidate(src, filter, rows, base, row)
    && forall r :: r in rows && Candidate(src, filter, rows, base, r) && TextOf(r, SYMBOL) == TextOf(row, SYMBOL) ==>
      && !TextOrder.Less(TextOf(row, MADE_AT), TextOf(r, MADE_AT))
      && (TextOf(r, MADE_AT) == TextOf(row, MADE_AT) ==> NumberOf(r, SET_ID) <= NumberOf(row, SET_ID))
  }

  /** The marks were loaded for the neutral text c of this filter. */
  predicate Loaded(src: Source, filter: Wire, c: Compiled, rows: set<Row>, base: Row -> bool, groups: seq<Set>,
                   l: Lookup)
  {
    && CompiledTo(src, filter, true, c) && |c.args| == Marks(c.sql)
    && Grouped(Selected(c, rows, base), groups) && HoldsNewest(groups, l.newest)
  }

  /** The row marked as latest is the newest among the rows that match the rest of the filter, wherever in the
      tree the condition stands. */
  lemma LatestExactly(src: Source, filter: Wire, c: Compiled, rows: set<Row>, base: Row -> bool, groups: seq<Set>,
                      l: Lookup, row: Row)
    requires SourceOk(src) && NoVersion(src) && Plannable(src, filter) && TableOk(src, rows) && row in rows
    requires Loaded(src, filter, c, rows, base, groups, l)
    ensures AnswersOf(row, l).latest <==> NewestCandidate(src, filter, rows, base, row)
  {
    hide *;
    LoadedParts(src, filter, c, rows, base, groups, l);
    var cands := Selected(c, rows, base);
    LatestIsMark(cands, groups, l, row);
    forall r | r in rows ensures SetOf(r) in cands <==> Candidate(src, filter, rows, base, r) {
      SelectedIsCandidate(src, filter, c, rows, base, r);
    }
    forall d | d in cands ensures Listed(rows, d) { SelectedOnly(c, rows, base, d); }
    NewestRow(src, filter, rows, base, cands, row);
  }

  lemma LoadedParts(src: Source, filter: Wire, c: Compiled, rows: set<Row>, base: Row -> bool, groups: seq<Set>,
                    l: Lookup)
    requires Loaded(src, filter, c, rows, base, groups, l)
    ensures CompiledTo(src, filter, true, c) && |c.args| == Marks(c.sql)
    ensures Grouped(Selected(c, rows, base), groups) && HoldsNewest(groups, l.newest)
  {
    hide Grouped, HoldsNewest, Selected, CompiledTo;
  }

  lemma LatestIsMark(cands: set<Set>, groups: seq<Set>, l: Lookup, row: Row)
    requires Grouped(cands, groups) && HoldsNewest(groups, l.newest)
    ensures AnswersOf(row, l).latest <==> NewestAmong(cands, SetOf(row))
  {
    GroupsDecide(cands, groups, l.newest, SetOf(row));
    hide Grouped, HoldsNewest, NewestAmong;
  }

  predicate Listed(rows: set<Row>, d: Set) { exists r :: r in rows && SetOf(r) == d }

  lemma SelectedRow(c: Compiled, rows: set<Row>, base: Row -> bool, r: Row)
    requires |c.args| == Marks(c.sql) && r in rows
    requires forall q :: q in rows && SetOf(q).id == SetOf(r).id ==> r == q
    ensures SetOf(r) in Selected(c, rows, base) <==> base(r) && Eval(c.sql, c.args, r) == True
  {
  }

  lemma SelectedIsCandidate(src: Source, filter: Wire, c: Compiled, rows: set<Row>, base: Row -> bool, r: Row)
    requires SourceOk(src) && NoVersion(src) && Plannable(src, filter) && CompiledTo(src, filter, true, c)
    requires TableOk(src, rows) && r in rows
    ensures SetOf(r) in Selected(c, rows, base) <==> Candidate(src, filter, rows, base, r)
  {
    CandidateText(src, filter, c, r);
    hide RowOk;
    SelectedRow(c, rows, base, r);
    hide Selected, WireSays, CompiledTo, Eval, Plannable, SetOf;
  }

  lemma SelectedOnly(c: Compiled, rows: set<Row>, base: Row -> bool, d: Set)
    requires d in Selected(c, rows, base)
    ensures Listed(rows, d)
  {
  }

  lemma NewestRow(src: Source, filter: Wire, rows: set<Row>, base: Row -> bool, cands: set<Set>, row: Row)
    requires forall r :: r in rows ==> (SetOf(r) in cands <==> Candidate(src, filter, rows, base, r))
    requires forall d :: d in cands ==> Listed(rows, d)
    requires row in rows
    ensures NewestAmong(cands, SetOf(row)) <==> NewestCandidate(src, filter, rows, base, row)
  {
    hide TextOrder.Less, WireSays, TextOf, NumberOf, Candidate;
    if NewestAmong(cands, SetOf(row)) {
      forall r | r in rows && Candidate(src, filter, rows, base, r) && TextOf(r, SYMBOL) == TextOf(row, SYMBOL)
        ensures !Later(SetOf(r), SetOf(row))
      {
        assert SetOf(r) in cands;
      }
    }
  }
}
