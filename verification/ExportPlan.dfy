/** From a compiled filter to the rows an export shows: the query with its flag columns and arguments,
    and the check per row that follows it. */
module ExportPlan {
  import opened Options
  import opened SqlLogic
  import opened ExportFilter
  import opened ExportCompile
  import opened ExportWire
  import Decimal

  // ---------- flag columns ----------

  /** One CASE WHEN column per leaf that SQL answers, in leaf order. */
  function PlainSel(leaves: seq<Leaf>): seq<Sql> {
    if leaves == [] then []
    else
      var last := leaves[|leaves| - 1];
      PlainSel(leaves[..|leaves| - 1]) + if last.derived == Plain then [last.sql] else []
  }

  function PlainArgs(leaves: seq<Leaf>): seq<Value> {
    if leaves == [] then []
    else
      var last := leaves[|leaves| - 1];
      PlainArgs(leaves[..|leaves| - 1]) + if last.derived == Plain then last.args else []
  }

  method BuildFlags(leaves: seq<Leaf>) returns (flagAt: map<nat, nat>, sel: seq<Sql>, args: seq<Value>)
    ensures sel == PlainSel(leaves) && args == PlainArgs(leaves)
    ensures forall i: nat :: i in flagAt <==> i < |leaves| && leaves[i].derived == Plain
    ensures forall i :: i in flagAt ==> flagAt[i] == |PlainSel(leaves[..i])|
  {
    flagAt, sel, args := map[], [], [];
    var k := 0;
    while k < |leaves|
      invariant 0 <= k <= |leaves|
      invariant sel == PlainSel(leaves[..k]) && args == PlainArgs(leaves[..k])
      invariant forall i: nat :: i in flagAt <==> i < k && leaves[i].derived == Plain
      invariant forall i :: i in flagAt ==> flagAt[i] == |PlainSel(leaves[..i])|
    {
      assert leaves[..k + 1][..k] == leaves[..k];
      if leaves[k].derived == Plain {
        flagAt := flagAt[k := |sel|];
        sel := sel + [leaves[k].sql];
        args := args + leaves[k].args;
      }
      k := k + 1;
    }
    assert leaves[..k] == leaves;
  }

  function Bit(t: Tri): string { if t == True then "1" else "0" }

  /** The flag columns of one row, each taking its own arguments in turn. */
  function FlagValues(sel: seq<Sql>, args: seq<Value>, row: Row): (r: seq<string>)
    requires |args| == MarksAll(sel)
    ensures |r| == |sel|
  {
    if sel == [] then []
    else [Bit(Eval(sel[0], args[..Marks(sel[0])], row))] + FlagValues(sel[1..], args[Marks(sel[0])..], row)
  }

  lemma {:induction false} MarksAppend(sel: seq<Sql>, q: Sql)
    ensures MarksAll(sel + [q]) == MarksAll(sel) + Marks(q)
  {
    if sel == [] {
      assert sel + [q] == [q] && [q][1..] == [];
      assert MarksAll([q]) == Marks(q) + MarksAll([]);
    } else {
      MarksAppend(sel[1..], q);
      assert (sel + [q])[1..] == sel[1..] + [q];
    }
  }

  lemma FlagsOne(q: Sql, more: seq<Value>, row: Row)
    requires |more| == Marks(q)
    ensures MarksAll([q]) == |more| && FlagValues([q], more, row) == [Bit(Eval(q, more, row))]
  {
    hide Eval, Marks, Bit;
    assert [q][1..] == [];
    assert more[..Marks(q)] == more && more[Marks(q)..] == [];
    assert MarksAll([q]) == Marks(q) + MarksAll([]);
  }

  lemma {:induction false} FlagsAppend(sel: seq<Sql>, args: seq<Value>, q: Sql, more: seq<Value>, row: Row)
    requires |args| == MarksAll(sel) && |more| == Marks(q)
    ensures MarksAll(sel + [q]) == |args + more|
    ensures FlagValues(sel + [q], args + more, row) == FlagValues(sel, args, row) + [Bit(Eval(q, more, row))]
  {
    MarksAppend(sel, q);
    hide Eval, Marks, Bit;
    if sel == [] {
      FlagsOne(q, more, row);
      assert sel + [q] == [q] && args + more == more;
    } else {
      var k := Marks(sel[0]);
      FlagsAppend(sel[1..], args[k..], q, more, row);
      hide MarksAll;
      assert (sel + [q])[0] == sel[0] && (sel + [q])[1..] == sel[1..] + [q];
      assert (args + more)[..k] == args[..k] && (args + more)[k..] == args[k..] + more;
    }
  }

  /** The flag column of a plain leaf stands where the plain leaves before it end, and holds its answer. */
  predicate Aligned(leaves: seq<Leaf>, i: nat, flags: seq<string>, row: Row)
    requires i < |leaves| && LeavesFit(leaves)
  {
    var at := |PlainSel(leaves[..i])|;
    at < |flags| && flags[at] == Bit(Eval(leaves[i].sql, leaves[i].args, row))
  }

  lemma FlagsGrow(front: seq<Leaf>, last: Leaf, row: Row)
    requires MarksAll(PlainSel(front)) == |PlainArgs(front)| && |last.args| == Marks(last.sql)
    ensures MarksAll(PlainSel(front + [last])) == |PlainArgs(front + [last])|
    ensures FlagValues(PlainSel(front + [last]), PlainArgs(front + [last]), row)
      == FlagValues(PlainSel(front), PlainArgs(front), row)
         + if last.derived == Plain then [Bit(Eval(last.sql, last.args, row))] else []
  {
    assert (front + [last])[..|front|] == front;
    hide Eval, FlagValues, Marks;
    if last.derived == Plain {
      FlagsAppend(PlainSel(front), PlainArgs(front), last.sql, last.args, row);
    } else {
      assert PlainSel(front + [last]) == PlainSel(front) && PlainArgs(front + [last]) == PlainArgs(front);
    }
  }

  lemma AlignedKept(front: seq<Leaf>, last: Leaf, i: nat, flags: seq<string>, all: seq<string>, row: Row)
    requires i < |front| && LeavesFit(front) && LeavesFit(front + [last])
    requires Aligned(front, i, flags, row) && flags <= all
    ensures Aligned(front + [last], i, all, row)
  {
    hide Eval, PlainSel, Bit;
    assert (front + [last])[..i] == front[..i];
  }

  lemma AlignedLast(front: seq<Leaf>, last: Leaf, flags: seq<string>, row: Row)
    requires LeavesFit(front + [last]) && |last.args| == Marks(last.sql) && |flags| == |PlainSel(front)|
    ensures Aligned(front + [last], |front|, flags + [Bit(Eval(last.sql, last.args, row))], row)
  {
    hide Eval, PlainSel, Bit;
    assert (front + [last])[..|front|] == front;
  }

  /** Flags and arguments stay aligned with the leaves: the column of a leaf holds that leaf's answer. */
  lemma {:induction false} FlagAligned(leaves: seq<Leaf>, row: Row)
    requires LeavesFit(leaves)
    ensures MarksAll(PlainSel(leaves)) == |PlainArgs(leaves)|
    ensures forall i :: 0 <= i < |leaves| && leaves[i].derived == Plain ==>
      Aligned(leaves, i, FlagValues(PlainSel(leaves), PlainArgs(leaves), row), row)
  {
    if leaves != [] {
      var n := |leaves| - 1;
      var front, last := leaves[..n], leaves[n];
      assert front + [last] == leaves;
      FlagAligned(front, row);
      hide Eval, FlagValues, Aligned, PlainSel, PlainArgs, Bit, Marks, MarksAll;
      FlagsGrow(front, last, row);
      var flags := FlagValues(PlainSel(front), PlainArgs(front), row);
      forall i | 0 <= i < |leaves| && leaves[i].derived == Plain
        ensures Aligned(leaves, i, FlagValues(PlainSel(leaves), PlainArgs(leaves), row), row)
      {
        if i < n {
          assert leaves[i] == front[i];
          AlignedKept(front, last, i, flags, FlagValues(PlainSel(leaves), PlainArgs(leaves), row), row);
        } else {
          AlignedLast(front, last, flags, row);
        }
      }
    }
  }

  // ---------- the row as it is read ----------

  const SYMBOL := "ps.symbol"
  const MADE_AT := "ps.made_at"
  const SET_ID := "ps.id"
  const ENTRY := "entry_price"

  /** A column as text, missing as the empty text; the entry price is the first one claimed. */
  function Cell(row: Row, name: string): string {
    if name == ENTRY then (if row.entries == [] then "" else Decimal.IntText(row.entries[0]))
    else match Column(row, name)
      case Null => ""
      case Num(n) => Decimal.IntText(n)
      case Text(s) => s
  }

  function Cells(row: Row, names: seq<string>): (r: seq<string>)
    ensures |r| == |names| && forall i :: 0 <= i < |names| ==> r[i] == Cell(row, names[i])
  {
    seq(|names|, i requires 0 <= i < |names| => Cell(row, names[i]))
  }

  function Atoi64(s: string): int {
    match Decimal.ParseInt(s) case Some(n) => n case None => 0
  }

  /** Where the cells the per-row check reads stand in a row. */
  datatype Layout = Layout(symbol: nat, made: nat, entry: nat, id: nat)

  predicate LaidOut(names: seq<string>, lay: Layout) {
    && lay.symbol < |names| && names[lay.symbol] == SYMBOL
    && lay.made < |names| && names[lay.made] == MADE_AT
    && lay.entry < |names| && names[lay.entry] == ENTRY
    && lay.id < |names| && names[lay.id] == SET_ID
  }

  datatype Newest = Newest(madeAt: string, id: int)

  /** The latest prices, and the newest candidate of each symbol. */
  datatype Lookup = Lookup(prices: map<string, int>, newest: map<string, Newest>)

  predicate BelowMatch(raw: seq<string>, lay: Layout, l: Lookup) {
    && lay.entry < |raw| && lay.symbol < |raw|
    && var entry := Atoi64(raw[lay.entry]);
      entry > 0 && raw[lay.symbol] in l.prices && l.prices[raw[lay.symbol]] < entry
  }

  predicate IsLatest(raw: seq<string>, lay: Layout, l: Lookup) {
    && lay.symbol < |raw| && lay.made < |raw| && lay.id < |raw|
    && raw[lay.symbol] in l.newest
    && l.newest[raw[lay.symbol]].madeAt == raw[lay.made] && l.newest[raw[lay.symbol]].id == Atoi64(raw[lay.id])
  }

  /** The two questions asked of the stored row rather than of its text. */
  function AnswersOf(row: Row, l: Lookup): Answers {
    var sym := TextOf(row, SYMBOL);
    Answers(row.entries != [] && row.entries[0] > 0 && sym in l.prices && l.prices[sym] < row.entries[0],
            sym in l.newest && l.newest[sym] == Newest(TextOf(row, MADE_AT), NumberOf(row, SET_ID)))
  }

  predicate Readable(row: Row) {
    && !Column(row, SYMBOL).Num? && !Column(row, MADE_AT).Num?
    && Column(row, SET_ID).Num? && Decimal.InInt64(Column(row, SET_ID).n)
    && (row.entries != [] ==> Decimal.InInt64(row.entries[0]))
  }

  predicate AsksPrice(leaves: seq<Leaf>) { exists i :: 0 <= i < |leaves| && leaves[i].derived.BelowEntry? }
  predicate AsksNewest(leaves: seq<Leaf>) { exists i :: 0 <= i < |leaves| && leaves[i].derived.Latest? }

  /** Whether a filter asks about prices or the newest set; only the forecasts source can. */
  predicate Asks(leaves: seq<Leaf>) { AsksPrice(leaves) || AsksNewest(leaves) }

  /** Reading prices and ids back from their text answers the questions of the stored row. */
  lemma AnswersRead(row: Row, names: seq<string>, lay: Layout, tail: seq<string>, l: Lookup)
    requires LaidOut(names, lay) && Readable(row)
    ensures var raw := Cells(row, names) + tail;
      && Answers(BelowMatch(raw, lay, l), IsLatest(raw, lay, l)) == AnswersOf(row, l)
    ensures var raw, sym := Cells(row, names) + tail, TextOf(row, SYMBOL);
      && (BelowMatch(raw, lay, l) <==>
          row.entries != [] && sym in l.prices && 0 < row.entries[0] && l.prices[sym] < row.entries[0])
      && (IsLatest(raw, lay, l) <==>
          sym in l.newest && l.newest[sym] == Newest(TextOf(row, MADE_AT), Column(row, SET_ID).n))
  {
    Decimal.PrintParse(Column(row, SET_ID).n);
    if row.entries != [] { Decimal.PrintParse(row.entries[0]); }
    assert Decimal.ParseInt("") == None;
  }

  // ---------- the plan ----------

  /** What the plan keeps of the compiled leaves for the per-row check. */
  datatype Check = Check(flagSel: seq<Sql>, flagArgs: seq<Value>, flagAt: map<nat, nat>, leaves: seq<Leaf>, tree: Tree)

  predicate CheckOk(k: Check, c: Compiled) {
    && k.leaves == c.leaves && k.tree == c.tree
    && k.flagSel == PlainSel(c.leaves) && k.flagArgs == PlainArgs(c.leaves)
    && (forall i :: 0 <= i < |c.leaves| && c.leaves[i].derived == Plain ==> i in k.flagAt)
    && (forall i :: i in k.flagAt ==> i < |c.leaves| && k.flagAt[i] == |PlainSel(c.leaves[..i])|)
  }

  /** One leaf's answer for a row as read; the other leaves take their flag column. */
  function LeafAnswer(k: Check, i: nat, raw: seq<string>, flagBase: nat, version: string, lay: Layout, l: Lookup): bool
  {
    if i >= |k.leaves| then false
    else match k.leaves[i].derived
      case Version(vals, negate) => VersionHit(version, vals) != negate
      case BelowEntry(want) => BelowMatch(raw, lay, l) == want
      case Latest(want) => IsLatest(raw, lay, l) == want
      case Plain => i in k.flagAt && flagBase + k.flagAt[i] < |raw| && raw[flagBase + k.flagAt[i]] == "1"
  }

  function Flags(k: Check, raw: seq<string>, flagBase: nat, version: string, lay: Layout, l: Lookup): nat -> bool
  {
    (i: nat) => LeafAnswer(k, i, raw, flagBase, version, lay, l)
  }

  /** Only a filter with a derived condition is checked again row by row. */
  function Post(k: Check, raw: seq<string>, flagBase: nat, version: string, lay: Layout, l: Lookup): bool
  {
    AllPlain(k.leaves) || TreeTruth(k.tree, Flags(k, raw, flagBase, version, lay, l))
  }

  /** One row through SELECT and WHERE, the arguments bound in textual order: flag columns first. */
  function RunRow(flags: seq<Sql>, where: Sql, args: seq<Value>, cells: seq<string>, keys: seq<string>,
                  row: Row): Option<seq<string>>
    requires |args| == MarksAll(flags) + Marks(where)
  {
    var m := MarksAll(flags);
    if Eval(where, args[m..], row) == True then Some(cells + FlagValues(flags, args[..m], row) + keys) else None
  }

  class Plan {
    var where: Sql
    var args: seq<Value>
    const check: Check

    /** The same filter with its derived conditions taken as true, kept when the newest set is asked for. */
    const cand: Option<Compiled>

    predicate Valid() reads this { |args| == Marks(where) && LeavesFit(check.leaves) }

    predicate Holds(c: Compiled) reads this { where == c.sql && args == c.args && CheckOk(check, c) }

    /** Whether the WHERE text alone keeps a row. */
    predicate Keeps(row: Row)
      requires Valid()
      reads this
    {
      Eval(where, args, row) == True
    }

    constructor (c: Compiled, cand: Option<Compiled>)
      requires |c.args| == Marks(c.sql) && LeavesFit(c.leaves)
      ensures Valid() && Holds(c) && this.cand == cand
    {
      this.cand := cand;
      var flagAt, sel, flagArgs := BuildFlags(c.leaves);
      where, args := c.sql, c.args;
      check := Check(sel, flagArgs, flagAt, c.leaves, c.tree);
    }

    /** Narrows the plan by one more condition, its arguments last. */
    method Restrict(frag: Sql, more: seq<Value>)
      requires Valid() && |more| == Marks(frag)
      modifies this
      ensures Valid()
      ensures forall row :: Keeps(row) <==> old(Keeps(row)) && Eval(frag, more, row) == True
    {
      ghost var w, a := where, args;
      PairMarks(w, frag);
      where, args := Join(true, [where, frag]), args + more;
      forall row ensures Eval(where, args, row) == True <==> Eval(w, a, row) == True && Eval(frag, more, row) == True {
        PairEval(true, w, frag, args, row);
        assert args[..|a|] == a && args[|a|..] == more;
      }
    }

    /** Everything a reader's export is held to: the read scope, no internal types, and only reports
        that existed when it was submitted. */
    method WithReaderLimits(scope: Option<(Sql, seq<Value>)>, internal: Option<(Sql, seq<Value>)>, id: string,
                            maxId: int)
      requires Valid()
      requires scope.Some? ==> |scope.value.1| == Marks(scope.value.0)
      requires internal.Some? ==> |internal.value.1| == Marks(internal.value.0)
      modifies this
      ensures Valid()
      ensures forall row :: Keeps(row) <==>
        && old(Keeps(row))
        && (scope.Some? ==> Eval(scope.value.0, scope.value.1, row) == True)
        && (internal.Some? ==> Eval(internal.value.0, internal.value.1, row) == True)
        && (maxId > 0 ==> Compare(Le, Column(row, id), Num(maxId)) == True)
    {
      if scope.Some? { Restrict(scope.value.0, scope.value.1); }
      if internal.Some? { Restrict(internal.value.0, internal.value.1); }
      if maxId > 0 { Restrict(Cmp(Col(id), Le), [Num(maxId)]); }
    }
  }

  /** Which filters get a plan: an absent one, and every admissible one whose yes/no and true/false
      conditions name those words. */
  predicate Plannable(src: Source, filter: Wire) {
    Admissible(src, Normalize(filter)) && Worded(src, ToNode(Normalize(filter)))
  }

  /** The compiled form of a filter. */
  predicate CompiledTo(src: Source, filter: Wire, neutral: bool, c: Compiled) {
    var n := ToNode(Normalize(filter));
    Fits(src, n) && Compile(src, n, neutral, 0) == Some(c)
  }

  lemma PlannableExactly(src: Source, filter: Wire)
    requires SourceOk(src)
    ensures Plannable(src, filter)
            <==> Admissible(src, Normalize(filter)) && exists c :: CompiledTo(src, filter, false, c)
  {
    var w := Normalize(filter);
    if Admissible(src, w) {
      ShapedFits(src, w, 1);
      hide Admissible, WellShaped, Fits;
      CompilesExactly(src, ToNode(w), false, 0);
      hide Compile, Worded;
      var c := Compile(src, ToNode(w), false, 0);
      if c.Some? { assert CompiledTo(src, filter, false, c.value); }
    }
  }

  /** No filter is refused for being absent, and it keeps every row. */
  lemma AbsentKeepsAll(src: Source, row: Row)
    requires SourceOk(src)
    ensures var none := Wire("", [], "", "", []);
      Plannable(src, none) && exists c ::
        CompiledTo(src, none, false, c) && c.args == [] && Marks(c.sql) == 0 && Eval(c.sql, [], row) == True
  {
    var none := Wire("", [], "", "", []);
    assert ToNode(Normalize(none)) == Group(true, []);
    var c := Compiled(Always, [], [], Branch(true, []));
    assert CompiledTo(src, none, false, c);
  }

  /** What is compiled is faithful to what the filter says as it arrives. */
  lemma CompiledSays(src: Source, filter: Wire, neutral: bool, c: Compiled, row: Row, a: Answers)
    requires SourceOk(src) && Plannable(src, filter) && CompiledTo(src, filter, neutral, c) && RowOk(src, row, a)
    ensures Faithful(c, 0, row, a, WireSays(src, filter, row, a, neutral))
  {
    var w := Normalize(filter);
    WireKept(src, w, 1, row, a, neutral);
    CompileFaithful(src, ToNode(w), neutral, 0, row, a);
    assert WireSays(src, w, row, a, neutral) == WireSays(src, filter, row, a, neutral);
    hide *;
  }

  /** The text compiled for a filter takes exactly the arguments compiled beside it, and so does each leaf. */
  lemma CompiledFits(src: Source, filter: Wire, neutral: bool, c: Compiled)
    requires SourceOk(src) && Plannable(src, filter) && CompiledTo(src, filter, neutral, c)
    ensures |c.args| == Marks(c.sql) && LeavesFit(c.leaves)
  {
    var blank, a := Row(map[], [], ""), Answers(false, false);
    assert RowOk(src, blank, a);
    CompiledSays(src, filter, neutral, c, blank, a);
    hide Plannable, CompiledTo, SourceOk, RowOk, WireSays, Eval;
  }

  /** With quotes off the fields that need a price are absent, and only they. */
  function View(all: Source, quotes: bool): (src: Source)
    ensures SourceOk(all) ==> SourceOk(src)
    ensures src.instant == all.instant
    ensures forall f ::
      f in src.fields <==> f in all.fields && (all.fields[f].kind.BelowKind? ==> quotes)
    ensures forall f :: f in src.fields ==> src.fields[f] == all.fields[f]
  {
    if quotes then all
    else all.(fields := map f | f in all.fields && !all.fields[f].kind.BelowKind? :: all.fields[f])
  }

  /** The candidate text is the neutral form of the filter, there exactly when the newest set is asked for. */
  predicate CandOf(src: Source, filter: Wire, c: Compiled, cand: Option<Compiled>) {
    if AsksNewest(c.leaves) then cand.Some? && CompiledTo(src, filter, true, cand.value) else cand.None?
  }

  /** One pass over a filter, in either form. */
  method CompileRoot(src: Source, n: Node, neutral: bool) returns (c: Option<Compiled>)
    requires Fits(src, n)
    ensures c == Compile(src, n, neutral, 0)
  {
    hide Fits;
    var compiler := new Compiler(src, neutral);
    var fits, sql, args, tree := compiler.Walk(n);
    if !fits { return None; }
    var all := Compiled(sql, args, compiler.leaves, tree);
    assert all == Compile(src, n, neutral, 0).value;
    c := Some(all);
  }

  /** A compiled form answers for every row what the filter says as it arrives: its text keeps every row the filter
      is for, exactly those when no condition is derived, and its evaluation tree tells them apart whatever the
      conditions are. */
  ghost predicate AnswersFor(src: Source, filter: Wire, neutral: bool, c: Compiled) {
    && |c.args| == Marks(c.sql) && LeavesFit(c.leaves)
    && forall row, a | RowOk(src, row, a) ::
      var says := WireSays(src, filter, row, a, neutral);
      && (says ==> Eval(c.sql, c.args, row) == True)
      && (AllPlain(c.leaves) && Eval(c.sql, c.args, row) == True ==> says)
      && forall flag: nat -> bool :: FlagsTell(c.leaves, 0, flag, row, a) ==> TreeTruth(c.tree, flag) == says
  }

  /** Normalizes, validates and compiles a filter against the source as the portal can serve it now. */
  method NewPlan(all: Source, quotes: bool, filter: Wire) returns (plan: Option<Plan>)
    requires SourceOk(all)
    ensures plan.Some? <==> Plannable(View(all, quotes), filter)
    ensures plan.Some? ==> fresh(plan.value) && plan.value.Valid()
    ensures plan.Some? ==> (
      var src := View(all, quotes);
      exists c ::
        CompiledTo(src, filter, false, c) && plan.value.Holds(c) && CandOf(src, filter, c, plan.value.cand))
    ensures plan.Some? ==> (
      var p := plan.value;
      && AnswersFor(View(all, quotes), filter, false, Compiled(p.where, p.args, p.check.leaves, p.check.tree))
      && (p.cand.Some? <==> exists i :: 0 <= i < |p.check.leaves| && p.check.leaves[i].derived.Latest?)
      && (p.cand.Some? ==> AnswersFor(View(all, quotes), filter, true, p.cand.value)))
  {
    var src := View(all, quotes);
    var root := Normalize(filter);
    var ok := Validate(src, root);
    if !ok { return None; }
    ShapedFits(src, root, 1);
    CompilesExactly(src, ToNode(root), false, 0);
    hide Admissible, Fits, Worded, SourceOk, View, AsksNewest, AnswersFor, Plannable;
    var exact := CompileRoot(src, ToNode(root), false);
    if exact.None? { return None; }
    var c := exact.value;
    CompiledFits(src, filter, false, c);
    var cand := None;
    if AsksNewest(c.leaves) {
      CompilesExactly(src, ToNode(root), true, 0);
      cand := CompileRoot(src, ToNode(root), true);
      if cand.None? { return None; }
      FormAnswers(src, filter, true, cand.value);
    }
    FormAnswers(src, filter, false, c);
    var made := new Plan(c, cand);
    assert CompiledTo(src, filter, false, c);
    NewestAsked(c.leaves);
    return Some(made);
  }

  lemma FormAnswers(src: Source, filter: Wire, neutral: bool, c: Compiled)
    requires SourceOk(src) && Plannable(src, filter) && CompiledTo(src, filter, neutral, c)
    ensures AnswersFor(src, filter, neutral, c)
  {
    CompiledFits(src, filter, neutral, c);
    forall row, a | RowOk(src, row, a) ensures Faithful(c, 0, row, a, WireSays(src, filter, row, a, neutral)) {
      CompiledSays(src, filter, neutral, c, row, a);
    }
    hide RowOk, WireSays, Eval, FlagsTell, TreeTruth, AllPlain, Plannable, CompiledTo, SourceOk, LeavesFit;
  }

  lemma NewestAsked(leaves: seq<Leaf>)
    ensures AsksNewest(leaves) <==> exists i :: 0 <= i < |leaves| && leaves[i].derived.Latest?
  {
  }

  /** With quotes off no plan ever asks for a price. */
  lemma QuotesOffAskNoPrice(all: Source, filter: Wire, c: Compiled)
    requires CompiledTo(View(all, false), filter, false, c)
    ensures !AsksPrice(c.leaves)
  {
    NeverAsks(View(all, false), ToNode(Normalize(filter)), 0);
  }

  lemma PairMarks(p: Sql, q: Sql)
    ensures Marks(Join(true, [p, q])) == Marks(p) + Marks(q)
  {
    assert [p, q][1..] == [q] && [q][1..] == [];
    assert MarksAll([q]) == Marks(q) + MarksAll([]);
  }

  // ---------- what an export selects ----------

  lemma FlagsAnswer(k: Check, c: Compiled, row: Row, names: seq<string>, keys: seq<string>, lay: Layout, l: Lookup)
    requires CheckOk(k, c) && LeavesFit(c.leaves)
    requires Asks(c.leaves) ==> LaidOut(names, lay) && Readable(row)
    ensures MarksAll(k.flagSel) == |k.flagArgs|
    ensures var raw := Cells(row, names) + FlagValues(k.flagSel, k.flagArgs, row) + keys;
      FlagsTell(c.leaves, 0, Flags(k, raw, |names|, row.version, lay, l), row, AnswersOf(row, l))
  {
    FlagAligned(c.leaves, row);
    var flags := FlagValues(k.flagSel, k.flagArgs, row);
    var raw := Cells(row, names) + flags + keys;
    assert raw == Cells(row, names) + (flags + keys);
    if Asks(c.leaves) { AnswersRead(row, names, lay, flags + keys, l); }
    forall i | 0 <= i < |c.leaves|
      ensures Flags(k, raw, |names|, row.version, lay, l)(0 + i) == LeafHolds(c.leaves[i], row, AnswersOf(row, l))
    {
      if c.leaves[i].derived == Plain { assert k.flagAt[i] < |flags|; }
      hide *;
      FlagAnswers(k, c, i, row, names, flags, keys, lay, l);
    }
  }

  lemma FlagAnswers(k: Check, c: Compiled, i: nat, row: Row, names: seq<string>, flags: seq<string>,
                    keys: seq<string>, lay: Layout, l: Lookup)
    requires CheckOk(k, c) && LeavesFit(c.leaves) && i < |c.leaves|
    requires c.leaves[i].derived == Plain ==>
      k.flagAt[i] < |flags| && flags[k.flagAt[i]] == Bit(Eval(c.leaves[i].sql, c.leaves[i].args, row))
    requires var raw := Cells(row, names) + flags + keys;
      && (c.leaves[i].derived.BelowEntry? ==> BelowMatch(raw, lay, l) == AnswersOf(row, l).below)
      && (c.leaves[i].derived.Latest? ==> IsLatest(raw, lay, l) == AnswersOf(row, l).latest)
    ensures var raw := Cells(row, names) + flags + keys;
      Flags(k, raw, |names|, row.version, lay, l)(i) == LeafHolds(c.leaves[i], row, AnswersOf(row, l))
  {
    hide Eval, AnswersOf, BelowMatch, IsLatest, VersionHit;
    if c.leaves[i].derived == Plain {
      var raw := Cells(row, names) + flags + keys;
      assert raw[|names| + k.flagAt[i]] == flags[k.flagAt[i]];
    }
  }

  /** The selection theorem. For every filter, every row with or without missing columns, and whatever
      further conditions were added to the WHERE, what the query returns and the per-row check then
      keeps are exactly the rows the filter accepts among those the further conditions admit. */
  lemma SelectsExactly(src: Source, filter: Wire, c: Compiled, k: Check, where: Sql, args: seq<Value>, admitted: bool,
                       row: Row, names: seq<string>, keys: seq<string>, lay: Layout, l: Lookup)
    requires SourceOk(src) && Plannable(src, filter) && CompiledTo(src, filter, false, c) && CheckOk(k, c)
    requires Asks(c.leaves) ==> Readable(row) && LaidOut(names, lay)
    requires RowOk(src, row, AnswersOf(row, l))
    requires |args| == Marks(where) && |c.args| == Marks(c.sql)
    requires Eval(where, args, row) == True <==> Eval(c.sql, c.args, row) == True && admitted
    ensures MarksAll(k.flagSel) == |k.flagArgs|
    ensures var got := RunRow(k.flagSel, where, k.flagArgs + args, Cells(row, names), keys, row);
      got.Some? && Post(k, got.value, |names|, row.version, lay, l)
      <==> WireSays(src, filter, row, AnswersOf(row, l), false) && admitted
  {
    CompiledSays(src, filter, false, c, row, AnswersOf(row, l));
    FlagsAnswer(k, c, row, names, keys, lay, l);
    var all := k.flagArgs + args;
    assert all[..|k.flagArgs|] == k.flagArgs && all[|k.flagArgs|..] == args;
    var raw := Cells(row, names) + FlagValues(k.flagSel, k.flagArgs, row) + keys;
    var flag := Flags(k, raw, |names|, row.version, lay, l);
    hide WireSays, Eval, CompiledTo, FlagsTell, TreeTruth, FlagValues, PlainSel, PlainArgs, Flags, AnswersOf, AllPlain;
    assert TreeTruth(c.tree, flag) == WireSays(src, filter, row, AnswersOf(row, l), false);
  }

  /** A source with neither a below-entry nor a latest field: every one but the forecasts. */
  predicate PriceFree(src: Source) { BelowFree(src) && LatestFree(src) }

  predicate BelowFree(src: Source) { forall f :: f in src.fields ==> !src.fields[f].kind.BelowKind? }
  predicate LatestFree(src: Source) { forall f :: f in src.fields ==> !src.fields[f].kind.LatestKind? }

  /** A source without a field of the kind has no filter that asks its question. */
  predicate AsksWithin(src: Source, leaves: seq<Leaf>) {
    (BelowFree(src) ==> !AsksPrice(leaves)) && (LatestFree(src) ==> !AsksNewest(leaves))
  }

  lemma WithinJoined(src: Source, a: seq<Leaf>, b: seq<Leaf>)
    requires AsksWithin(src, a) && AsksWithin(src, b)
    ensures AsksWithin(src, a + b)
  {
    hide BelowFree, LatestFree;
  }

  lemma {:induction false} NeverAsks(src: Source, n: Node, base: nat)
    requires Fits(src, n)
    ensures Compile(src, n, false, base).Some? ==> AsksWithin(src, Compile(src, n, false, base).value.leaves)
    decreases n
  {
    if n.Group? { NeverAskAny(src, n.items, base); }
  }

  lemma {:induction false} NeverAskAny(src: Source, items: seq<Node>, base: nat)
    requires forall i :: 0 <= i < |items| ==> Fits(src, items[i])
    ensures CompileAll(src, items, false, base).Some? ==>
      AsksWithin(src, CompileAll(src, items, false, base).value.leaves)
    decreases items
  {
    if items != [] {
      NeverAsks(src, items[0], base);
      var c := Compile(src, items[0], false, base);
      hide Compile, Fits, AsksWithin;
      if c.Some? {
        NeverAskAny(src, items[1..], base + |c.value.leaves|);
        var rest := CompileAll(src, items[1..], false, base + |c.value.leaves|);
        if rest.Some? { WithinJoined(src, c.value.leaves, rest.value.leaves); }
      }
    }
  }

  /** Reports, whose filters are checked again row by row only for the generator version, and every other
      source without prices: the selection is exact whatever columns the source selects. */
  lemma PriceFreeSelectsExactly(src: Source, filter: Wire, c: Compiled, k: Check, where: Sql, args: seq<Value>,
                                admitted: bool,
                                row: Row, names: seq<string>, keys: seq<string>, lay: Layout, l: Lookup)
    requires SourceOk(src) && PriceFree(src)
    requires Plannable(src, filter) && CompiledTo(src, filter, false, c) && CheckOk(k, c)
    requires RowOk(src, row, AnswersOf(row, l))
    requires |args| == Marks(where) && |c.args| == Marks(c.sql)
    requires Eval(where, args, row) == True <==> Eval(c.sql, c.args, row) == True && admitted
    ensures MarksAll(k.flagSel) == |k.flagArgs|
    ensures var got := RunRow(k.flagSel, where, k.flagArgs + args, Cells(row, names), keys, row);
      got.Some? && Post(k, got.value, |names|, row.version, lay, l)
      <==> WireSays(src, filter, row, AnswersOf(row, l), false) && admitted
  {
    NeverAsks(src, ToNode(Normalize(filter)), 0);
    hide *;
    SelectsExactly(src, filter, c, k, where, args, admitted, row, names, keys, lay, l);
  }

  // ---------- the keyset cursor ----------

  /** The condition that resumes after the last row read. */
  function CursorSql(k1: Option<string>, id: string): Sql {
    if k1.Some? then Join(false, [Cmp(Col(k1.value), Lt), Join(true, [Cmp(Col(k1.value), Eq), Cmp(Col(id), Lt)])])
    else Cmp(Col(id), Lt)
  }

  function CursorArgs(k1: Option<string>, lastK1: Value, lastId: Value): seq<Value> {
    if k1.Some? then [lastK1, lastK1, lastId] else [lastId]
  }

  /** The cursor keeps the rows whose key is strictly smaller, and drops every row whose first key is
      missing. */
  lemma CursorMeaning(k1: Option<string>, id: string, lastK1: Value, lastId: Value, row: Row)
    requires lastK1 != Null && lastId != Null && Column(row, id) != Null
    ensures Marks(CursorSql(k1, id)) == |CursorArgs(k1, lastK1, lastId)|
    ensures Eval(CursorSql(k1, id), CursorArgs(k1, lastK1, lastId), row) == True <==>
      if k1.Some? then
        var v := Column(row, k1.value);
        v != Null && (Below(v, lastK1) || (v == lastK1 && Below(Column(row, id), lastId)))
      else Below(Column(row, id), lastId)
  {
    if k1.Some? {
      var lt, eq, idLt := Cmp(Col(k1.value), Lt), Cmp(Col(k1.value), Eq), Cmp(Col(id), Lt);
      var args := CursorArgs(k1, lastK1, lastId);
      PairEval(true, eq, idLt, args[1..], row);
      PairEval(false, lt, Join(true, [eq, idLt]), args, row);
    }
  }
}
