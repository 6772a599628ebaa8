/** Checking a filter as it arrives, and compiling the whole tree. */
module ExportCompile {
  import opened Options
  import opened SqlLogic
  import opened ExportFilter

  // ---------- validation ----------

  const MAX_CONDITIONS := 20
  const MAX_DEPTH := 3
  const MAX_NODES := 50

  /** A filter item as it arrives: a group when op is set, otherwise a condition. */
  datatype Wire = Wire(op: string, items: seq<Wire>, field: string, operator: string, vals: seq<string>)

  function OpOf(s: string): Option<Op> {
    if s == "is" then Some(Is) else if s == "is_not" then Some(IsNot)
    else if s == "in" then Some(In) else if s == "not_in" then Some(NotIn)
    else if s == "contains" then Some(Contains) else if s == "before" then Some(Before)
    else if s == "after" then Some(After) else if s == "between" then Some(Between)
    else None
  }

  function ToNode(w: Wire): Node {
    if w.op != "" then Group(w.op == "and", ToNodes(w.items))
    else Cond(w.field, if OpOf(w.operator).Some? then OpOf(w.operator).value else Is, w.vals)
  }

  function ToNodes(items: seq<Wire>): (r: seq<Node>)
    ensures |r| == |items| && forall i :: 0 <= i < |items| ==> r[i] == ToNode(items[i])
  {
    if items == [] then [] else [ToNode(items[0])] + ToNodes(items[1..])
  }

  /** Every item is a group or a condition the whitelist admits, and no group lies deeper than the limit. */
  predicate WellShaped(src: Source, w: Wire, depth: nat)
    decreases w
  {
    if w.op != "" then
      && (w.op == "and" || w.op == "or")
      && w.field == "" && w.operator == "" && w.vals == []
      && depth <= MAX_DEPTH
      && forall i :: 0 <= i < |w.items| ==> WellShaped(src, w.items[i], depth + 1)
    else
      w.field != "" && w.items == [] && OpOf(w.operator).Some? && CondFits(src, ToNode(w))
  }

  function Nodes(w: Wire): nat { 1 + if w.op != "" then NodesIn(w.items) else 0 }
  function NodesIn(items: seq<Wire>): nat { if items == [] then 0 else Nodes(items[0]) + NodesIn(items[1..]) }

  function Conds(w: Wire): nat { if w.op != "" then CondsIn(w.items) else 1 }
  function CondsIn(items: seq<Wire>): nat { if items == [] then 0 else Conds(items[0]) + CondsIn(items[1..]) }

  predicate Admissible(src: Source, root: Wire) {
    root.op != "" && WellShaped(src, root, 1) && Nodes(root) <= MAX_NODES && Conds(root) <= MAX_CONDITIONS
  }

  const EMPTY := Wire("and", [], "", "", [])

  /** An absent filter stands for the empty group. */
  function Normalize(w: Wire): Wire { if w.op == "" && w.field == "" && w.items == [] then EMPTY else w }

  /** A filter is accepted exactly when it is well shaped and within the limits, whatever order the
      checks stop in. */
  method Validate(src: Source, root: Wire) returns (ok: bool)
    ensures ok <==> Admissible(src, root)
  {
    if root.op == "" { return false; }
    var conds, nodes;
    ok, conds, nodes := ValidateItem(src, root, 1, 0, 0);
  }

  method ValidateItem(src: Source, w: Wire, depth: nat, conds0: nat, nodes0: nat)
    returns (ok: bool, conds: nat, nodes: nat)
    requires nodes0 <= MAX_NODES && conds0 <= MAX_CONDITIONS
    ensures ok <==> WellShaped(src, w, depth) && nodes0 + Nodes(w) <= MAX_NODES && conds0 + Conds(w) <= MAX_CONDITIONS
    ensures ok ==> nodes == nodes0 + Nodes(w) && conds == conds0 + Conds(w)
    decreases w, 1
  {
    ok, conds, nodes := false, conds0, nodes0 + 1;
    if nodes > MAX_NODES { return; }
    hide CondFits, OpOf, ToNode;
    if w.op != "" {
      if w.op != "and" && w.op != "or" { return; }
      if w.field != "" || w.operator != "" || |w.vals| > 0 { return; }
      if depth > MAX_DEPTH { return; }
      ok, conds, nodes := ValidateAll(src, w, depth, conds, nodes);
      return;
    }
    if w.field == "" || |w.items| > 0 { return; }
    conds := conds0 + 1;
    if conds > MAX_CONDITIONS || OpOf(w.operator).None? { return; }
    ok := CondFits(src, ToNode(w));
  }

  /** The items of one group, counted on from what was counted before. */
  method ValidateAll(src: Source, w: Wire, depth: nat, conds0: nat, nodes0: nat)
    returns (ok: bool, conds: nat, nodes: nat)
    requires nodes0 <= MAX_NODES && conds0 <= MAX_CONDITIONS
    ensures ok <==>
      && (forall i :: 0 <= i < |w.items| ==> WellShaped(src, w.items[i], depth + 1))
      && nodes0 + NodesIn(w.items) <= MAX_NODES && conds0 + CondsIn(w.items) <= MAX_CONDITIONS
    ensures ok ==> nodes == nodes0 + NodesIn(w.items) && conds == conds0 + CondsIn(w.items)
    decreases w, 0
  {
    ok, conds, nodes := false, conds0, nodes0;
    hide WellShaped;
    var i := 0;
    while i < |w.items|
      invariant 0 <= i <= |w.items| && nodes <= MAX_NODES && conds <= MAX_CONDITIONS
      invariant nodes + NodesIn(w.items[i..]) == nodes0 + NodesIn(w.items)
      invariant conds + CondsIn(w.items[i..]) == conds0 + CondsIn(w.items)
      invariant forall k :: 0 <= k < i ==> WellShaped(src, w.items[k], depth + 1)
    {
      assert w.items[i..][1..] == w.items[i + 1..];
      var fits;
      fits, conds, nodes := ValidateItem(src, w.items[i], depth + 1, conds, nodes);
      if !fits { return; }
      i := i + 1;
    }
    ok := true;
  }

  /** Whatever validation accepts can be compiled. */
  lemma {:induction false} ShapedFits(src: Source, w: Wire, depth: nat)
    requires WellShaped(src, w, depth)
    ensures Fits(src, ToNode(w))
    decreases w
  {
    if w.op != "" {
      forall i | 0 <= i < |w.items| ensures Fits(src, ToNode(w.items[i])) { ShapedFits(src, w.items[i], depth + 1); }
    }
  }

  // ---------- compilation ----------

  /** The filter with leaf numbers, evaluated per row when SQL alone cannot decide. */
  datatype Tree = Branch(and: bool, kids: seq<Tree>) | LeafAt(index: nat)

  predicate TreeTruth(t: Tree, flag: nat -> bool)
    decreases t
  {
    match t
    case LeafAt(i) => flag(i)
    case Branch(and, kids) => KidsTruth(and, kids, flag)
  }

  predicate KidsTruth(and: bool, kids: seq<Tree>, flag: nat -> bool)
    decreases kids
  {
    if kids == [] then and
    else
      var r := TreeTruth(kids[0], flag);
      if and && !r then false else if !and && r then true else KidsTruth(and, kids[1..], flag)
  }

  datatype Compiled = Compiled(sql: Sql, args: seq<Value>, leaves: seq<Leaf>, tree: Tree)
  datatype Parts = Parts(sqls: seq<Sql>, args: seq<Value>, leaves: seq<Leaf>, kids: seq<Tree>)

  const NO_PARTS := Parts([], [], [], [])

  function Cat(p: Parts, q: Parts): Parts {
    Parts(p.sqls + q.sqls, p.args + q.args, p.leaves + q.leaves, p.kids + q.kids)
  }

  function One(c: Compiled): Parts { Parts([c.sql], c.args, c.leaves, [c.tree]) }

  /** base leaves have been compiled before this node. An empty group accepts everything. */
  function Compile(src: Source, n: Node, neutral: bool, base: nat): Option<Compiled>
    requires Fits(src, n)
    decreases n
  {
    match n
    case Cond(_, _, _) =>
      (match CompileLeaf(src, n, neutral)
       case None => None
       case Some(l) => Some(Compiled(l.sql, l.args, [l], LeafAt(base))))
    case Group(and, items) =>
      if items == [] then Some(Compiled(Always, [], [], Branch(true, [])))
      else match CompileAll(src, items, neutral, base)
        case None => None
        case Some(p) => Some(Compiled(Join(and, p.sqls), p.args, p.leaves, Branch(and, p.kids)))
  }

  function CompileAll(src: Source, items: seq<Node>, neutral: bool, base: nat): Option<Parts>
    requires forall i :: 0 <= i < |items| ==> Fits(src, items[i])
    decreases items
  {
    if items == [] then Some(NO_PARTS)
    else match Compile(src, items[0], neutral, base)
      case None => None
      case Some(c) =>
        match CompileAll(src, items[1..], neutral, base + |c.leaves|)
        case None => None
        case Some(rest) => Some(Cat(One(c), rest))
  }

  /** Compiles by appending to one list of leaves, as the portal does. */
  class Compiler {
    const src: Source
    const neutral: bool
    var leaves: seq<Leaf>

    constructor (src: Source, neutral: bool)
      ensures this.src == src && this.neutral == neutral && leaves == []
    {
      this.src, this.neutral, leaves := src, neutral, [];
    }

    method Walk(n: Node) returns (ok: bool, sql: Sql, args: seq<Value>, tree: Tree)
      requires Fits(src, n)
      modifies this
      ensures ok <==> Compile(src, n, neutral, |old(leaves)|).Some?
      ensures ok ==> (
        var c := Compile(src, n, neutral, |old(leaves)|).value;
        sql == c.sql && args == c.args && tree == c.tree && leaves == old(leaves) + c.leaves)
      decreases n
    {
      hide CompileLeaf, CompileAll;
      if n.Cond? {
        var leaf := CompileLeaf(src, n, neutral);
        if leaf.None? { return false, Always, [], Branch(true, []); }
        leaves := leaves + [leaf.value];
        return true, leaf.value.sql, leaf.value.args, LeafAt(|leaves| - 1);
      }
      if n.items == [] { return true, Always, [], Branch(true, []); }
      ghost var base := |leaves|;
      var parts: seq<Sql>, kids: seq<Tree>, flat: seq<Value> := [], [], [];
      ghost var done := NO_PARTS;
      var i := 0;
      CompilingStarts(src, n.items, neutral, base);
      while i < |n.items|
        invariant 0 <= i <= |n.items|
        invariant done == Parts(parts, flat, done.leaves, kids)
        invariant leaves == old(leaves) + done.leaves
        invariant Compiling(src, n.items, i, neutral, base, done)
      {
        CompilingStep(src, n.items, i, neutral, base, done);
        hide Compiling, Compile, Fits;
        var fits, q, a, kid := Walk(n.items[i]);
        if !fits { return false, Always, [], Branch(true, []); }
        ghost var c := Compile(src, n.items[i], neutral, base + |done.leaves|).value;
        parts, flat, kids := parts + [q], flat + a, kids + [kid];
        done := Extend(done, c);
        i := i + 1;
      }
      CompilingEnds(src, n.items, neutral, base, done);
      hide Compiling, Fits;
      return true, Join(n.and, parts), flat, Branch(n.and, kids);
    }
  }

  function Prepend(p: Parts, q: Option<Parts>): Option<Parts> {
    if q.Some? then Some(Cat(p, q.value)) else None
  }

  /** The first i items have compiled to done, and the rest decides the whole. */
  predicate Compiling(src: Source, items: seq<Node>, i: nat, neutral: bool, base: nat, done: Parts)
    requires forall k :: 0 <= k < |items| ==> Fits(src, items[k])
  {
    && i <= |items|
    && CompileAll(src, items, neutral, base)
      == Prepend(done, CompileAll(src, items[i..], neutral, base + |done.leaves|))
  }

  lemma CompilingStarts(src: Source, items: seq<Node>, neutral: bool, base: nat)
    requires forall k :: 0 <= k < |items| ==> Fits(src, items[k])
    ensures Compiling(src, items, 0, neutral, base, NO_PARTS)
  {
    assert items[0..] == items;
    var all := CompileAll(src, items, neutral, base);
    assert all.Some? ==> Cat(NO_PARTS, all.value) == all.value;
  }

  function Extend(done: Parts, c: Compiled): Parts {
    Parts(done.sqls + [c.sql], done.args + c.args, done.leaves + c.leaves, done.kids + [c.tree])
  }

  lemma CompileAllHead(src: Source, items: seq<Node>, i: nat, neutral: bool, base: nat)
    requires forall k :: 0 <= k < |items| ==> Fits(src, items[k])
    requires i < |items|
    ensures match Compile(src, items[i], neutral, base)
            case None => CompileAll(src, items[i..], neutral, base) == None
            case Some(c) =>
              CompileAll(src, items[i..], neutral, base)
                == Prepend(One(c), CompileAll(src, items[i + 1..], neutral, base + |c.leaves|))
  {
    assert items[i..][0] == items[i] && items[i..][1..] == items[i + 1..];
    hide Compile, Fits;
  }

  lemma PrependTwice(done: Parts, c: Compiled, q: Option<Parts>)
    ensures Prepend(done, Prepend(One(c), q)) == Prepend(Extend(done, c), q)
    ensures |Extend(done, c).leaves| == |done.leaves| + |c.leaves|
  {
    assert Extend(done, c) == Cat(done, One(c));
    if q.Some? { CatAssoc(done, One(c), q.value); }
  }

  lemma CompilingStep(src: Source, items: seq<Node>, i: nat, neutral: bool, base: nat, done: Parts)
    requires forall k :: 0 <= k < |items| ==> Fits(src, items[k])
    requires i < |items| && Compiling(src, items, i, neutral, base, done)
    ensures match Compile(src, items[i], neutral, base + |done.leaves|)
            case None => CompileAll(src, items, neutral, base) == None
            case Some(c) => Compiling(src, items, i + 1, neutral, base, Extend(done, c))
  {
    hide Compile, CompileAll, Fits, Prepend, Extend, One;
    CompileAllHead(src, items, i, neutral, base + |done.leaves|);
    var first := Compile(src, items[i], neutral, base + |done.leaves|);
    if first.Some? {
      var c := first.value;
      PrependTwice(done, c, CompileAll(src, items[i + 1..], neutral, base + |done.leaves| + |c.leaves|));
    } else {
      NothingPrepended(done);
    }
  }

  lemma NothingPrepended(done: Parts)
    ensures Prepend(done, None) == None
  {
  }

  lemma CompilingEnds(src: Source, items: seq<Node>, neutral: bool, base: nat, done: Parts)
    requires forall k :: 0 <= k < |items| ==> Fits(src, items[k])
    requires Compiling(src, items, |items|, neutral, base, done)
    ensures CompileAll(src, items, neutral, base) == Some(done)
  {
    assert items[|items|..] == [];
    assert Cat(done, NO_PARTS) == done;
  }

  lemma CatAssoc(p: Parts, q: Parts, r: Parts)
    ensures Cat(p, Cat(q, r)) == Cat(Cat(p, q), r)
  {
    assert p.sqls + (q.sqls + r.sqls) == p.sqls + q.sqls + r.sqls;
    assert p.args + (q.args + r.args) == p.args + q.args + r.args;
    assert p.leaves + (q.leaves + r.leaves) == p.leaves + q.leaves + r.leaves;
    assert p.kids + (q.kids + r.kids) == p.kids + q.kids + r.kids;
  }

  // ---------- the translation preserves meaning ----------

  predicate LeavesFit(leaves: seq<Leaf>) {
    forall i :: 0 <= i < |leaves| ==> |leaves[i].args| == Marks(leaves[i].sql)
  }

  predicate AllPlain(leaves: seq<Leaf>) {
    forall i :: 0 <= i < |leaves| ==> leaves[i].derived == Plain
  }

  predicate FlagsTell(leaves: seq<Leaf>, base: nat, flag: nat -> bool, row: Row, a: Answers)
    requires LeavesFit(leaves)
  {
    forall i :: 0 <= i < |leaves| ==> flag(base + i) == LeafHolds(leaves[i], row, a)
  }

  /** What the compiled form of one node promises about one row. */
  ghost predicate Faithful(c: Compiled, base: nat, row: Row, a: Answers, truth: bool) {
    && |c.args| == Marks(c.sql) && LeavesFit(c.leaves)
    && (truth ==> Eval(c.sql, c.args, row) == True)
    && (AllPlain(c.leaves) && Eval(c.sql, c.args, row) == True ==> truth)
    && (forall flag: nat -> bool :: FlagsTell(c.leaves, base, flag, row, a) ==> TreeTruth(c.tree, flag) == truth)
  }

  ghost predicate FaithfulAll(p: Parts, and: bool, base: nat, row: Row, a: Answers, truth: bool) {
    && |p.args| == MarksAll(p.sqls) && LeavesFit(p.leaves)
    && (truth ==> EvalAll(and, p.sqls, p.args, row) == True)
    && (AllPlain(p.leaves) && EvalAll(and, p.sqls, p.args, row) == True ==> truth)
    && (forall flag: nat -> bool :: FlagsTell(p.leaves, base, flag, row, a) ==> KidsTruth(and, p.kids, flag) == truth)
  }

  lemma SplitFlags(c: Compiled, rest: Parts, base: nat, flag: nat -> bool, row: Row, a: Answers)
    requires LeavesFit(c.leaves) && LeavesFit(rest.leaves)
    ensures LeavesFit(Cat(One(c), rest).leaves)
    ensures FlagsTell(Cat(One(c), rest).leaves, base, flag, row, a) ==>
      FlagsTell(c.leaves, base, flag, row, a) && FlagsTell(rest.leaves, base + |c.leaves|, flag, row, a)
    ensures AllPlain(Cat(One(c), rest).leaves) ==> AllPlain(c.leaves) && AllPlain(rest.leaves)
  {
    var l := c.leaves + rest.leaves;
    assert forall i :: 0 <= i < |c.leaves| ==> l[i] == c.leaves[i];
    assert forall i :: 0 <= i < |rest.leaves| ==> l[|c.leaves| + i] == rest.leaves[i];
    if FlagsTell(l, base, flag, row, a) {
      forall i | 0 <= i < |rest.leaves| ensures flag(base + |c.leaves| + i) == LeafHolds(rest.leaves[i], row, a) {
        assert flag(base + (|c.leaves| + i)) == LeafHolds(l[|c.leaves| + i], row, a);
      }
    }
  }

  lemma ConsEval(c: Compiled, rest: Parts, and: bool, row: Row)
    requires |c.args| == Marks(c.sql) && |rest.args| == MarksAll(rest.sqls)
    ensures var p := Cat(One(c), rest);
      && |p.args| == MarksAll(p.sqls)
      && (EvalAll(and, p.sqls, p.args, row) == True <==>
          if and then Eval(c.sql, c.args, row) == True && EvalAll(and, rest.sqls, rest.args, row) == True
          else Eval(c.sql, c.args, row) == True || EvalAll(and, rest.sqls, rest.args, row) == True)
  {
    var p := Cat(One(c), rest);
    assert p.sqls[0] == c.sql && p.sqls[1..] == rest.sqls;
    assert p.args[..|c.args|] == c.args && p.args[|c.args|..] == rest.args;
  }

  lemma ConsKids(c: Compiled, rest: Parts, and: bool, flag: nat -> bool)
    ensures KidsTruth(and, Cat(One(c), rest).kids, flag) ==
      if and then TreeTruth(c.tree, flag) && KidsTruth(and, rest.kids, flag)
      else TreeTruth(c.tree, flag) || KidsTruth(and, rest.kids, flag)
  {
    var p := Cat(One(c), rest);
    assert p.kids[0] == c.tree && p.kids[1..] == rest.kids;
  }

  /** Joining faithful parts is faithful: a WHERE of ANDs and ORs is true exactly when the Boolean tree
      is, although single conditions may be unknown. */
  lemma ConsFaithful(c: Compiled, rest: Parts, and: bool, base: nat, row: Row, a: Answers, first: bool, others: bool)
    requires Faithful(c, base, row, a, first)
    requires FaithfulAll(rest, and, base + |c.leaves|, row, a, others)
    ensures FaithfulAll(Cat(One(c), rest), and, base, row, a, if and then first && others else first || others)
  {
    var p := Cat(One(c), rest);
    ConsEval(c, rest, and, row);
    forall flag: nat -> bool ensures LeavesFit(p.leaves)
      ensures AllPlain(p.leaves) ==> AllPlain(c.leaves) && AllPlain(rest.leaves)
      ensures FlagsTell(p.leaves, base, flag, row, a) ==>
        KidsTruth(and, p.kids, flag) == if and then first && others else first || others
    {
      SplitFlags(c, rest, base, flag, row, a);
      ConsKids(c, rest, and, flag);
    }
    SplitFlags(c, rest, base, _ => true, row, a);
  }

  lemma LeafFaithful(l: Leaf, base: nat, row: Row, a: Answers)
    requires |l.args| == Marks(l.sql) && (LeafHolds(l, row, a) ==> Eval(l.sql, l.args, row) == True)
    ensures Faithful(Compiled(l.sql, l.args, [l], LeafAt(base)), base, row, a, LeafHolds(l, row, a))
  {
    var c := Compiled(l.sql, l.args, [l], LeafAt(base));
    assert AllPlain([l]) ==> [l][0].derived == Plain;
    forall flag: nat -> bool | FlagsTell([l], base, flag, row, a)
      ensures TreeTruth(c.tree, flag) == LeafHolds(l, row, a)
    {
      assert flag(base + 0) == LeafHolds([l][0], row, a);
    }
  }

  /** The main translation theorem: for every tree and row, the WHERE text selects a superset of what
      the tree accepts, exactly that when every leaf is plain SQL, and the evaluation tree accepts
      exactly that whatever the leaves. */
  lemma {:induction false} CompileFaithful(src: Source, n: Node, neutral: bool, base: nat, row: Row, a: Answers)
    requires SourceOk(src) && Fits(src, n) && Compile(src, n, neutral, base).Some? && RowOk(src, row, a)
    ensures Faithful(Compile(src, n, neutral, base).value, base, row, a, Truthful(src, n, row, a, neutral))
    decreases n, 1
  {
    match n
    case Cond(_, _, _) => CondFaithful(src, n, neutral, base, row, a);
    case Group(and, items) =>
      if items == [] {
        NothingFaithful(base, row, a);
      } else {
        CompileAllFaithful(src, items, and, neutral, base, row, a);
        var p := CompileAll(src, items, neutral, base).value;
        hide RowOk, Faithful, FaithfulAll, SourceOk, Fits, CondTruth;
        JoinFaithful(and, p, base, row, a, Combined(src, items, and, row, a, neutral));
      }
  }

  lemma NothingFaithful(base: nat, row: Row, a: Answers)
    ensures Faithful(Compiled(Always, [], [], Branch(true, [])), base, row, a, true)
  {
  }

  lemma JoinFaithful(and: bool, p: Parts, base: nat, row: Row, a: Answers, truth: bool)
    requires FaithfulAll(p, and, base, row, a, truth)
    ensures Faithful(Compiled(Join(and, p.sqls), p.args, p.leaves, Branch(and, p.kids)), base, row, a, truth)
  {
    hide FlagsTell, AllPlain, LeavesFit, KidsTruth, EvalAll, MarksAll;
  }

  lemma CondFaithful(src: Source, n: Node, neutral: bool, base: nat, row: Row, a: Answers)
    requires n.Cond? && SourceOk(src) && Fits(src, n) && Compile(src, n, neutral, base).Some? && RowOk(src, row, a)
    ensures Faithful(Compile(src, n, neutral, base).value, base, row, a, Truthful(src, n, row, a, neutral))
  {
    LeafExact(src, n, row, a, neutral);
    LeafFaithful(CompileLeaf(src, n, neutral).value, base, row, a);
    hide LeafHolds, CondTruth, Faithful, RowOk, CompileLeaf;
  }

  function Combined(src: Source, items: seq<Node>, and: bool, row: Row, a: Answers, neutral: bool): bool
    requires SourceOk(src) && forall i :: 0 <= i < |items| ==> Fits(src, items[i])
  {
    if and then forall i :: 0 <= i < |items| ==> Truthful(src, items[i], row, a, neutral)
    else exists i :: 0 <= i < |items| && Truthful(src, items[i], row, a, neutral)
  }

  lemma CombinedStep(src: Source, items: seq<Node>, and: bool, row: Row, a: Answers, neutral: bool)
    requires SourceOk(src) && forall i :: 0 <= i < |items| ==> Fits(src, items[i])
    requires items != []
    ensures
      var first, others := Truthful(src, items[0], row, a, neutral), Combined(src, items[1..], and, row, a, neutral);
      Combined(src, items, and, row, a, neutral) == if and then first && others else first || others
  {
    var rest := items[1..];
    assert forall i :: 0 < i < |items| ==> items[i] == rest[i - 1];
    forall i | 0 <= i < |items| && Truthful(src, items[i], row, a, neutral)
      ensures i == 0 || Truthful(src, rest[i - 1], row, a, neutral) {}
  }

  lemma {:induction false} CompileAllFaithful(src: Source, items: seq<Node>, and: bool, neutral: bool, base: nat,
                                              row: Row, a: Answers)
    requires SourceOk(src) && RowOk(src, row, a)
    requires forall i :: 0 <= i < |items| ==> Fits(src, items[i])
    requires CompileAll(src, items, neutral, base).Some?
    ensures
      FaithfulAll(CompileAll(src, items, neutral, base).value, and, base, row, a,
                  Combined(src, items, and, row, a, neutral))
    decreases items, 0
  {
    if items == [] {
    } else {
      var c := Compile(src, items[0], neutral, base).value;
      var rest := CompileAll(src, items[1..], neutral, base + |c.leaves|).value;
      var first, others := Truthful(src, items[0], row, a, neutral), Combined(src, items[1..], and, row, a, neutral);
      CompileFaithful(src, items[0], neutral, base, row, a);
      CompileAllFaithful(src, items[1..], and, neutral, base + |c.leaves|, row, a);
      ConsFaithful(c, rest, and, base, row, a, first, others);
      CombinedStep(src, items, and, row, a, neutral);
    }
  }

  // ---------- which filters compile ----------

  /** Every yes/no condition of the filter asks for yes or no, every true/false condition for true or false. */
  predicate Worded(src: Source, n: Node)
    decreases n
  {
    match n
    case Cond(field, _, vals) =>
      field in src.fields ==> WordsFit(src.fields[field].kind, vals)
    case Group(_, items) => forall i :: 0 <= i < |items| ==> Worded(src, items[i])
  }

  /** A filter that fits its source compiles exactly when its yes/no and true/false conditions name those
      words. */
  lemma {:induction false} CompilesExactly(src: Source, n: Node, neutral: bool, base: nat)
    requires SourceOk(src) && Fits(src, n)
    ensures Compile(src, n, neutral, base).Some? <==> Worded(src, n)
    decreases n
  {
    if n.Cond? { FittingCompiles(src, n, neutral); } else { AllCompileExactly(src, n.items, neutral, base); }
  }

  predicate AllWorded(src: Source, items: seq<Node>) { forall i :: 0 <= i < |items| ==> Worded(src, items[i]) }

  lemma AllWordedStep(src: Source, items: seq<Node>)
    requires items != []
    ensures AllWorded(src, items) <==> Worded(src, items[0]) && AllWorded(src, items[1..])
  {
    hide Worded;
    assert forall i :: 0 < i < |items| ==> items[i] == items[1..][i - 1];
  }

  lemma {:induction false} AllCompileExactly(src: Source, items: seq<Node>, neutral: bool, base: nat)
    requires SourceOk(src) && forall i :: 0 <= i < |items| ==> Fits(src, items[i])
    ensures CompileAll(src, items, neutral, base).Some? <==> AllWorded(src, items)
    decreases items
  {
    if items != [] {
      CompilesExactly(src, items[0], neutral, base);
      AllWordedStep(src, items);
      var c := Compile(src, items[0], neutral, base);
      hide Compile, Fits, SourceOk, Worded, AllWorded;
      if c.Some? { AllCompileExactly(src, items[1..], neutral, base + |c.value.leaves|); }
    }
  }
}
