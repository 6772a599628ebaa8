/** The export filter: a tree of conditions in and/or groups, and its translation to a WHERE text with
    positional arguments and an evaluation tree for the conditions SQL cannot answer. */
module ExportFilter {
  import opened Options
  import opened SqlLogic
  import Civil
  import Decimal
  import LikePattern
  import TextOrder

  datatype Op = Is | IsNot | In | NotIn | Contains | Before | After | Between

  /** An instant value as the column stores instants: its own, and for a bare day the first instant of
      the next day. */
  datatype Moment = Moment(lo: int, hi: int, dayOnly: bool)

  datatype Kind =
    | TextKind | DateKind | NumberKind | InstantKind
    | SearchKind(cols: seq<string>)
    | VersionKind | LatestKind | BelowKind | FlagKind

  datatype Field = Field(kind: Kind, col: string, ops: set<Op>)

  /** The filter side of one source. instant reads an instant or a bare day in the panel's zone. */
  datatype Source = Source(fields: map<string, Field>, instant: string -> Option<Moment>)

  datatype Node = Group(and: bool, items: seq<Node>) | Cond(field: string, op: Op, vals: seq<string>)

  function KindOps(k: Kind): set<Op> {
    match k
    case TextKind => {Is, IsNot, In, NotIn, Contains}
    case DateKind => {Is, IsNot, In, NotIn, Before, After, Between}
    case InstantKind => {Before, After, Between}
    case NumberKind => {Is, IsNot, Before, After, Between}
    case SearchKind(_) => {Contains}
    case _ => {Is, IsNot, In, NotIn}
  }

  predicate SourceOk(src: Source) {
    forall f :: f in src.fields ==> src.fields[f].ops <= KindOps(src.fields[f].kind)
  }

  // ---------- conditions ----------

  const MAX_VALUES := 200
  const MAX_VALUE_LEN := 256

  function Utf8Len(s: string): nat {
    if s == "" then 0
    else
      var c := s[0] as int;
      (if c < 0x80 then 1 else if c < 0x800 then 2 else if c < 0x1_0000 then 3 else 4) + Utf8Len(s[1..])
  }

  predicate ValueFits(src: Source, k: Kind, v: string) {
    && Utf8Len(v) <= MAX_VALUE_LEN
    && match k
       case DateKind => Civil.IsDateText(v)
       case InstantKind => src.instant(v).Some?
       case NumberKind => Decimal.ParseInt(v).Some?
       case _ => true
  }

  predicate ArityFits(op: Op, n: nat) {
    match op
    case Between => n == 2
    case In => 1 <= n <= MAX_VALUES
    case NotIn => 1 <= n <= MAX_VALUES
    case _ => n == 1
  }

  /** What the whitelist asks of one condition. */
  predicate CondFits(src: Source, c: Node)
    requires c.Cond?
  {
    && c.field in src.fields
    && c.op in src.fields[c.field].ops
    && ArityFits(c.op, |c.vals|)
    && forall i :: 0 <= i < |c.vals| ==> ValueFits(src, src.fields[c.field].kind, c.vals[i])
  }

  // ---------- what a condition means ----------

  /** What the two per-row questions beyond SQL answer for a row. */
  datatype Answers = Answers(below: bool, latest: bool)

  function TextOf(row: Row, col: string): string {
    match Column(row, col) case Text(s) => s case _ => ""
  }

  function NumberOf(row: Row, col: string): int {
    match Column(row, col) case Num(n) => n case _ => 0
  }

  predicate TextTruth(t: string, op: Op, vals: seq<string>)
    requires ArityFits(op, |vals|)
  {
    match op
    case Is => t == vals[0]
    case IsNot => t != vals[0]
    case In => t in vals
    case NotIn => t !in vals
    case Contains => LikePattern.Contains(t, vals[0])
    case Before => t != "" && TextOrder.Less(t, vals[0])
    case After => TextOrder.AtMost(vals[0], t)
    case Between => TextOrder.AtMost(vals[0], t) && TextOrder.AtMost(t, vals[1])
  }

  predicate NumberTruth(n: int, op: Op, a: int, b: int) {
    match op
    case Is => n == a
    case IsNot => n != a
    case Before => n < a
    case After => n > a
    case _ => a <= n <= b
  }

  /** A bare day covers the whole day; a missing instant satisfies nothing. */
  predicate InstantTruth(v: Value, op: Op, a: Moment, b: Moment) {
    && v.Num?
    && match op
       case Before => v.n < a.lo
       case After => if a.dayOnly then a.lo <= v.n else a.lo < v.n
       case _ => a.lo <= v.n && if b.dayOnly then v.n < b.hi else v.n <= b.lo
  }

  predicate VersionHit(version: string, vals: seq<string>) {
    exists i :: 0 <= i < |vals| && LikePattern.SameFold(version, vals[i])
  }

  predicate Negative(op: Op) { op == IsNot || op == NotIn }

  predicate YesNoValues(vals: seq<string>) { forall i :: 0 <= i < |vals| ==> vals[i] == "yes" || vals[i] == "no" }

  /** Which of the two outcomes a yes/no condition admits. */
  function AdmitsYes(op: Op, vals: seq<string>): bool { ("yes" in vals) != Negative(op) }
  function AdmitsNo(op: Op, vals: seq<string>): bool { ("no" in vals) != Negative(op) }

  /** A condition that admits both outcomes is no restriction; any other asks for one outcome. */
  predicate YesNoTruth(answer: bool, op: Op, vals: seq<string>) {
    (AdmitsYes(op, vals) && AdmitsNo(op, vals)) || answer == AdmitsYes(op, vals)
  }

  predicate FlagValues(vals: seq<string>) { forall i :: 0 <= i < |vals| ==> vals[i] == "true" || vals[i] == "false" }

  function FlagValue(v: string): int { if v == "true" then 1 else 0 }

  /** A flag, stored as 1 or 0 and missing as 0, is among the values, or is not. */
  predicate FlagTruth(n: int, op: Op, vals: seq<string>) {
    (exists i :: 0 <= i < |vals| && n == FlagValue(vals[i])) != Negative(op)
  }

  /** The words a condition of the kind may name; every other kind takes what its arity and values admit. */
  predicate WordsFit(k: Kind, vals: seq<string>) {
    match k
    case LatestKind => YesNoValues(vals)
    case BelowKind => YesNoValues(vals)
    case FlagKind => FlagValues(vals)
    case _ => true
  }

  predicate CondTruth(src: Source, c: Node, row: Row, a: Answers, neutral: bool)
    requires c.Cond? && CondFits(src, c) && SourceOk(src)
  {
    var f := src.fields[c.field];
    match f.kind
    case TextKind => TextTruth(TextOf(row, f.col), c.op, c.vals)
    case DateKind => TextTruth(TextOf(row, f.col), c.op, c.vals)
    case NumberKind =>
      NumberTruth(NumberOf(row, f.col), c.op, Decimal.ParseInt(c.vals[0]).value,
                  Decimal.ParseInt(c.vals[|c.vals| - 1]).value)
    case InstantKind =>
      InstantTruth(Column(row, f.col), c.op, src.instant(c.vals[0]).value, src.instant(c.vals[|c.vals| - 1]).value)
    case SearchKind(cols) => exists i :: 0 <= i < |cols| && LikePattern.Contains(TextOf(row, cols[i]), c.vals[0])
    case VersionKind => VersionHit(row.version, c.vals) != Negative(c.op)
    case LatestKind => neutral || YesNoTruth(a.latest, c.op, c.vals)
    case BelowKind => neutral || YesNoTruth(a.below, c.op, c.vals)
    case FlagKind => FlagTruth(NumberOf(row, f.col), c.op, c.vals)
  }

  /** The condition read literally: the answer is one of the admitted outcomes. */
  predicate YesNoLiteral(answer: bool, op: Op, vals: seq<string>) {
    if answer then AdmitsYes(op, vals) else AdmitsNo(op, vals)
  }

  /** A yes/no condition is read literally exactly when it admits some outcome; excluding both still
      selects the rows that answer no. */
  lemma YesNoExactly(op: Op, vals: seq<string>)
    ensures (forall answer :: YesNoTruth(answer, op, vals) == YesNoLiteral(answer, op, vals))
            <==> AdmitsYes(op, vals) || AdmitsNo(op, vals)
    ensures YesNoTruth(false, NotIn, ["yes", "no"]) && !YesNoLiteral(false, NotIn, ["yes", "no"])
  {
    if !AdmitsYes(op, vals) && !AdmitsNo(op, vals) {
      assert YesNoTruth(false, op, vals) != YesNoLiteral(false, op, vals);
    }
    assert AdmitsYes(NotIn, ["yes", "no"]) == false;
    assert "no" == ["yes", "no"][1];
  }

  predicate Truthful(src: Source, n: Node, row: Row, a: Answers, neutral: bool)
    requires SourceOk(src) && Fits(src, n)
  {
    match n
    case Cond(_, _, _) => CondTruth(src, n, row, a, neutral)
    case Group(and, items) =>
      if items == [] then true
      else if and then forall i :: 0 <= i < |items| ==> Truthful(src, items[i], row, a, neutral)
      else exists i :: 0 <= i < |items| && Truthful(src, items[i], row, a, neutral)
  }

  predicate Fits(src: Source, n: Node) {
    match n
    case Cond(_, _, _) => CondFits(src, n)
    case Group(_, items) => forall i :: 0 <= i < |items| ==> Fits(src, items[i])
  }

  // ---------- compiling one condition ----------

  datatype Derived = Plain | Version(vals: seq<string>, negate: bool) | BelowEntry(want: bool) | Latest(want: bool)

  datatype Leaf = Leaf(sql: Sql, args: seq<Value>, derived: Derived)

  function Texts(vals: seq<string>): seq<Value> {
    seq(|vals|, i requires 0 <= i < |vals| => Text(vals[i]))
  }

  function Pattern(v: string): Value { Text("%" + LikePattern.Escape(v) + "%") }

  function CompileText(col: string, op: Op, vals: seq<string>): Option<Leaf>
    requires ArityFits(op, |vals|)
  {
    var t := Coalesce(col, Text(""));
    match op
    case Is => Some(Leaf(Cmp(t, Eq), [Text(vals[0])], Plain))
    case IsNot => Some(Leaf(Cmp(t, Ne), [Text(vals[0])], Plain))
    case In => Some(Leaf(InList(t, |vals|, false), Texts(vals), Plain))
    case NotIn => Some(Leaf(InList(t, |vals|, true), Texts(vals), Plain))
    case Contains => Some(Leaf(Like(t), [Pattern(vals[0])], Plain))
    case _ => None
  }

  function CompileDate(col: string, op: Op, vals: seq<string>): Option<Leaf>
    requires ArityFits(op, |vals|)
  {
    var t := Coalesce(col, Text(""));
    match op
    case Before => Some(Leaf(Join(true, [Cmp(t, Lt), NotEmpty(t)]), [Text(vals[0])], Plain))
    case After => Some(Leaf(Cmp(t, Ge), [Text(vals[0])], Plain))
    case Between => Some(Leaf(Join(true, [Cmp(t, Ge), Cmp(t, Le)]), [Text(vals[0]), Text(vals[1])], Plain))
    case Contains => None
    case _ => CompileText(col, op, vals)
  }

  function CompileNumber(col: string, op: Op, vals: seq<string>): Option<Leaf>
    requires ArityFits(op, |vals|)
  {
    var t := Coalesce(col, Num(0));
    var a, b := Decimal.ParseInt(vals[0]), Decimal.ParseInt(vals[|vals| - 1]);
    if a.None? || b.None? then None
    else match op
      case Is => Some(Leaf(Cmp(t, Eq), [Num(a.value)], Plain))
      case IsNot => Some(Leaf(Cmp(t, Ne), [Num(a.value)], Plain))
      case Before => Some(Leaf(Cmp(t, Lt), [Num(a.value)], Plain))
      case After => Some(Leaf(Cmp(t, Gt), [Num(a.value)], Plain))
      case Between => Some(Leaf(Join(true, [Cmp(t, Ge), Cmp(t, Le)]), [Num(a.value), Num(b.value)], Plain))
      case _ => None
  }

  function CompileInstant(src: Source, col: string, op: Op, vals: seq<string>): Option<Leaf>
    requires ArityFits(op, |vals|)
  {
    var t := Col(col);
    var a, b := src.instant(vals[0]), src.instant(vals[|vals| - 1]);
    if a.None? || b.None? then None
    else match op
      case After => Some(Leaf(Cmp(t, if a.value.dayOnly then Ge else Gt), [Num(a.value.lo)], Plain))
      case Before => Some(Leaf(Cmp(t, Lt), [Num(a.value.lo)], Plain))
      case Between =>
        if b.value.dayOnly then
          Some(Leaf(Join(true, [Cmp(t, Ge), Cmp(t, Lt)]), [Num(a.value.lo), Num(b.value.hi)], Plain))
        else Some(Leaf(Join(true, [Cmp(t, Ge), Cmp(t, Le)]), [Num(a.value.lo), Num(b.value.lo)], Plain))
      case _ => None
  }

  function Likes(cols: seq<string>): seq<Sql> {
    seq(|cols|, i requires 0 <= i < |cols| => Like(Coalesce(cols[i], Text(""))))
  }

  function CompileSearch(cols: seq<string>, v: string): Leaf {
    Leaf(Join(false, Likes(cols)), seq(|cols|, _ => Pattern(v)), Plain)
  }

  const SOURCE := "r.source"
  const TITLE := "r.title"

  function VersionParts(n: nat): seq<Sql> {
    seq(n, _ => Join(false, Likes([SOURCE, TITLE])))
  }

  function VersionArgs(vals: seq<string>): seq<Value> {
    if vals == [] then [] else [Pattern(vals[0]), Pattern(vals[0])] + VersionArgs(vals[1..])
  }

  /** SQL only narrows the candidates of a version condition; a negated one cannot be narrowed. */
  function CompileVersion(op: Op, vals: seq<string>): Leaf {
    if Negative(op) then Leaf(Always, [], Version(vals, true))
    else Leaf(Join(false, VersionParts(|vals|)), VersionArgs(vals), Version(vals, false))
  }

  function CompileLatest(op: Op, vals: seq<string>, neutral: bool): Option<Leaf> {
    if !YesNoValues(vals) then None
    else if neutral || (AdmitsYes(op, vals) && AdmitsNo(op, vals)) then Some(Leaf(Always, [], Plain))
    else Some(Leaf(Always, [], Latest(AdmitsYes(op, vals))))
  }

  function CompileBelow(op: Op, vals: seq<string>, neutral: bool): Option<Leaf> {
    if !YesNoValues(vals) then None
    else if neutral || (AdmitsYes(op, vals) && AdmitsNo(op, vals)) then Some(Leaf(Always, [], Plain))
    else if AdmitsYes(op, vals) then Some(Leaf(HasEntry, [], BelowEntry(true)))
    else Some(Leaf(Always, [], BelowEntry(false)))
  }

  function Flags(vals: seq<string>): seq<Value> {
    seq(|vals|, i requires 0 <= i < |vals| => Num(FlagValue(vals[i])))
  }

  function CompileFlag(col: string, op: Op, vals: seq<string>): Option<Leaf>
    requires ArityFits(op, |vals|)
  {
    var t := Coalesce(col, Num(0));
    if !FlagValues(vals) then None
    else match op
      case Is => Some(Leaf(Cmp(t, Eq), Flags(vals), Plain))
      case IsNot => Some(Leaf(Cmp(t, Ne), Flags(vals), Plain))
      case NotIn => Some(Leaf(InList(t, |vals|, true), Flags(vals), Plain))
      case _ => Some(Leaf(InList(t, |vals|, false), Flags(vals), Plain))
  }

  function CompileLeaf(src: Source, c: Node, neutral: bool): Option<Leaf>
    requires c.Cond? && CondFits(src, c)
  {
    var f := src.fields[c.field];
    match f.kind
    case TextKind => CompileText(f.col, c.op, c.vals)
    case DateKind => CompileDate(f.col, c.op, c.vals)
    case NumberKind => CompileNumber(f.col, c.op, c.vals)
    case InstantKind => CompileInstant(src, f.col, c.op, c.vals)
    case SearchKind(cols) => Some(CompileSearch(cols, c.vals[0]))
    case VersionKind => Some(CompileVersion(c.op, c.vals))
    case LatestKind => CompileLatest(c.op, c.vals, neutral)
    case BelowKind => CompileBelow(c.op, c.vals, neutral)
    case FlagKind => CompileFlag(f.col, c.op, c.vals)
  }

  // ---------- a compiled condition means what the condition means ----------

  /** Columns hold what their kind stores, a version was found in the source or the title, and a row is
      below its entry price only when it has one. */
  predicate RowOk(src: Source, row: Row, a: Answers) {
    && (forall f :: f in src.fields ==> match src.fields[f].kind
        case NumberKind => !Column(row, src.fields[f].col).Text?
        case InstantKind => !Column(row, src.fields[f].col).Text?
        case FlagKind => !Column(row, src.fields[f].col).Text?
        case SearchKind(cols) => forall i :: 0 <= i < |cols| ==> !Column(row, cols[i]).Num?
        case _ => !Column(row, src.fields[f].col).Num?)
    && !Column(row, SOURCE).Num? && !Column(row, TITLE).Num?
    && (row.version != "" ==> VersionFound(row, row.version))
    && (a.below ==> row.entries != [] && row.entries[0] > 0)
  }

  predicate LeafHolds(l: Leaf, row: Row, a: Answers)
    requires |l.args| == Marks(l.sql)
  {
    match l.derived
    case Plain => Eval(l.sql, l.args, row) == True
    case Version(vals, negate) => VersionHit(row.version, vals) != negate
    case BelowEntry(want) => a.below == want
    case Latest(want) => a.latest == want
  }

  lemma TextLeaf(col: string, op: Op, vals: seq<string>, row: Row)
    requires ArityFits(op, |vals|) && !Column(row, col).Num? && CompileText(col, op, vals).Some?
    ensures var l := CompileText(col, op, vals).value;
      |l.args| == Marks(l.sql) && l.derived == Plain && (Eval(l.sql, l.args, row) == True <==>
        TextTruth(TextOf(row, col), op, vals))
  {
    var t := TextOf(row, col);
    assert TermValue(Coalesce(col, Text("")), row) == Text(t);
    if op == Contains { LikePattern.ContainsExactly(vals[0], t); }
    if op == In || op == NotIn {
      MemberExactly(Text(t), Texts(vals));
      assert t in vals <==> Text(t) in Texts(vals) by {
        if t in vals {
          var i :| 0 <= i < |vals| && vals[i] == t;
          assert Texts(vals)[i] == Text(t);
        }
      }
    }
  }

  lemma PairEval(and: bool, p: Sql, q: Sql, args: seq<Value>, row: Row)
    requires |args| == Marks(p) + Marks(q)
    ensures Marks(Join(and, [p, q])) == |args|
    ensures Eval(Join(and, [p, q]), args, row) == True <==>
      if and then Eval(p, args[..Marks(p)], row) == True && Eval(q, args[Marks(p)..], row) == True
      else Eval(p, args[..Marks(p)], row) == True || Eval(q, args[Marks(p)..], row) == True
  {
    var rest := args[Marks(p)..];
    assert [p, q][1..] == [q];
    assert [q][1..] == [];
    assert MarksAll([q]) == Marks(q);
    assert rest[..Marks(q)] == rest && rest[Marks(q)..] == [];
    assert EvalAll(and, [q], rest, row)
      == (if and then And(Eval(q, rest, row), True) else Or(Eval(q, rest, row), False));
  }

  lemma DateLeaf(col: string, op: Op, vals: seq<string>, row: Row)
    requires ArityFits(op, |vals|) && !Column(row, col).Num? && CompileDate(col, op, vals).Some?
    ensures var l := CompileDate(col, op, vals).value;
      |l.args| == Marks(l.sql) && l.derived == Plain && (Eval(l.sql, l.args, row) == True <==>
        TextTruth(TextOf(row, col), op, vals))
  {
    var t := Coalesce(col, Text(""));
    assert TermValue(t, row) == Text(TextOf(row, col));
    match op
    case Before => PairEval(true, Cmp(t, Lt), NotEmpty(t), [Text(vals[0])], row);
    case Between => PairEval(true, Cmp(t, Ge), Cmp(t, Le), [Text(vals[0]), Text(vals[1])], row);
    case After =>
    case _ => TextLeaf(col, op, vals, row);
  }

  lemma NumberLeaf(col: string, op: Op, vals: seq<string>, row: Row)
    requires ArityFits(op, |vals|) && !Column(row, col).Text? && CompileNumber(col, op, vals).Some?
    ensures var l := CompileNumber(col, op, vals).value;
      && |l.args| == Marks(l.sql) && l.derived == Plain
      && (Eval(l.sql, l.args, row) == True <==>
          NumberTruth(NumberOf(row, col), op, Decimal.ParseInt(vals[0]).value,
                      Decimal.ParseInt(vals[|vals| - 1]).value))
  {
    var t := Coalesce(col, Num(0));
    var a, b := Decimal.ParseInt(vals[0]).value, Decimal.ParseInt(vals[|vals| - 1]).value;
    PairEval(true, Cmp(t, Ge), Cmp(t, Le), [Num(a), Num(b)], row);
  }

  lemma FlagLeaf(col: string, op: Op, vals: seq<string>, row: Row)
    requires ArityFits(op, |vals|) && op in KindOps(FlagKind) && !Column(row, col).Text?
    requires CompileFlag(col, op, vals).Some?
    ensures var l := CompileFlag(col, op, vals).value;
      && |l.args| == Marks(l.sql) && l.derived == Plain
      && (Eval(l.sql, l.args, row) == True <==> FlagTruth(NumberOf(row, col), op, vals))
  {
    var n := NumberOf(row, col);
    assert TermValue(Coalesce(col, Num(0)), row) == Num(n);
    MemberExactly(Num(n), Flags(vals));
    assert (exists i :: 0 <= i < |vals| && n == FlagValue(vals[i])) <==> Num(n) in Flags(vals) by {
      if i :| 0 <= i < |vals| && n == FlagValue(vals[i]) { assert Flags(vals)[i] == Num(n); }
    }
    hide FlagValue, Member;
  }

  lemma InstantLeaf(src: Source, col: string, op: Op, vals: seq<string>, row: Row)
    requires ArityFits(op, |vals|) && !Column(row, col).Text? && CompileInstant(src, col, op, vals).Some?
    ensures var l := CompileInstant(src, col, op, vals).value;
      && |l.args| == Marks(l.sql) && l.derived == Plain
      && (Eval(l.sql, l.args, row) == True <==>
          InstantTruth(Column(row, col), op, src.instant(vals[0]).value, src.instant(vals[|vals| - 1]).value))
  {
    var t := Col(col);
    var a, b := src.instant(vals[0]).value, src.instant(vals[|vals| - 1]).value;
    PairEval(true, Cmp(t, Ge), Cmp(t, Lt), [Num(a.lo), Num(b.hi)], row);
    PairEval(true, Cmp(t, Ge), Cmp(t, Le), [Num(a.lo), Num(b.lo)], row);
  }

  lemma LikeEval(col: string, v: string, row: Row)
    requires !Column(row, col).Num?
    ensures var q := Like(Coalesce(col, Text("")));
      Marks(q) == 1 && (Eval(q, [Pattern(v)], row) == True <==> LikePattern.Contains(TextOf(row, col), v))
  {
    LikePattern.ContainsExactly(v, TextOf(row, col));
  }

  lemma {:induction false} LikesEval(cols: seq<string>, v: string, row: Row)
    requires forall i :: 0 <= i < |cols| ==> !Column(row, cols[i]).Num?
    ensures MarksAll(Likes(cols)) == |cols|
    ensures EvalAll(false, Likes(cols), seq(|cols|, _ => Pattern(v)), row) == True <==>
      exists i :: 0 <= i < |cols| && LikePattern.Contains(TextOf(row, cols[i]), v)
  {
    if cols != [] {
      var rest, args := cols[1..], seq(|cols|, _ => Pattern(v));
      LikesEval(rest, v, row);
      LikeEval(cols[0], v, row);
      hide Eval, Marks, Pattern, TextOf, LikePattern.Contains;
      assert Likes(cols)[1..] == Likes(rest);
      assert args[..1] == [Pattern(v)] && args[1..] == seq(|rest|, _ => Pattern(v));
      assert forall i :: 0 < i < |cols| ==> cols[i] == rest[i - 1];
      if exists i :: 0 < i < |cols| && LikePattern.Contains(TextOf(row, cols[i]), v) {
        var i :| 0 < i < |cols| && LikePattern.Contains(TextOf(row, cols[i]), v);
        assert LikePattern.Contains(TextOf(row, rest[i - 1]), v);
      }
    }
  }

  lemma SameFoldContains(t: string, v: string, w: string)
    requires LikePattern.SameFold(v, w) && LikePattern.Contains(t, v)
    ensures LikePattern.Contains(t, w)
  {
    var i :| 0 <= i <= |t| && LikePattern.StartsWith(t[i..], v);
    assert LikePattern.StartsWith(t[i..], w);
  }

  lemma EmptyContained(t: string)
    ensures LikePattern.Contains(t, "")
  {
    assert LikePattern.StartsWith(t[0..], "");
  }

  predicate VersionFound(row: Row, v: string) {
    LikePattern.Contains(TextOf(row, SOURCE), v) || LikePattern.Contains(TextOf(row, TITLE), v)
  }

  lemma VersionPart(v: string, row: Row)
    requires !Column(row, SOURCE).Num? && !Column(row, TITLE).Num?
    ensures Marks(Join(false, Likes([SOURCE, TITLE]))) == 2
    ensures Eval(Join(false, Likes([SOURCE, TITLE])), [Pattern(v), Pattern(v)], row) == True <==> VersionFound(row, v)
  {
    var cols := [SOURCE, TITLE];
    LikesEval(cols, v, row);
    assert [Pattern(v), Pattern(v)] == seq(2, _ => Pattern(v));
    if VersionFound(row, v) {
      assert LikePattern.Contains(TextOf(row, cols[0]), v) || LikePattern.Contains(TextOf(row, cols[1]), v);
    }
  }

  lemma VersionOccurs(v: string, row: Row)
    requires row.version != "" ==> VersionFound(row, row.version)
    requires LikePattern.SameFold(row.version, v)
    ensures VersionFound(row, v)
  {
    if row.version == "" { EmptyContained(TextOf(row, SOURCE)); }
    else if LikePattern.Contains(TextOf(row, SOURCE), row.version) {
      SameFoldContains(TextOf(row, SOURCE), row.version, v);
    }
    else { SameFoldContains(TextOf(row, TITLE), row.version, v); }
  }

  lemma VersionSplits(vals: seq<string>, row: Row)
    requires vals != [] && (row.version != "" ==> VersionFound(row, row.version))
    ensures VersionHit(row.version, vals) ==> VersionHit(row.version, vals[1..]) || VersionFound(row, vals[0])
  {
    if VersionHit(row.version, vals) {
      var i :| 0 <= i < |vals| && LikePattern.SameFold(row.version, vals[i]);
      if i > 0 {
        assert LikePattern.SameFold(row.version, vals[1..][i - 1]);
      } else {
        VersionOccurs(vals[0], row);
      }
    }
  }

  /** The version prefilter keeps every row the exact test accepts. */
  lemma {:induction false} VersionSuperset(vals: seq<string>, row: Row)
    requires !Column(row, SOURCE).Num? && !Column(row, TITLE).Num?
    requires row.version != "" ==> VersionFound(row, row.version)
    ensures MarksAll(VersionParts(|vals|)) == |VersionArgs(vals)|
    ensures VersionHit(row.version, vals) ==> EvalAll(false, VersionParts(|vals|), VersionArgs(vals), row) == True
  {
    if vals != [] {
      var rest := vals[1..];
      var part := Join(false, Likes([SOURCE, TITLE]));
      VersionSuperset(rest, row);
      VersionPart(vals[0], row);
      VersionSplits(vals, row);
      hide VersionFound, VersionHit, Likes, Pattern, LikePattern.Contains, LikePattern.SameFold;
      var args := VersionArgs(vals);
      assert VersionParts(|vals|)[0] == part && VersionParts(|vals|)[1..] == VersionParts(|rest|);
      assert args[..2] == [Pattern(vals[0]), Pattern(vals[0])];
      assert args[2..] == VersionArgs(rest);
    }
  }

  lemma YesNoLeaf(op: Op, vals: seq<string>, row: Row, a: Answers, neutral: bool)
    requires YesNoValues(vals) && (a.below ==> row.entries != [] && row.entries[0] > 0)
    ensures LeafHolds(CompileLatest(op, vals, neutral).value, row, a) <==> neutral || YesNoTruth(a.latest, op, vals)
    ensures LeafHolds(CompileBelow(op, vals, neutral).value, row, a) <==> neutral || YesNoTruth(a.below, op, vals)
    ensures LeafHolds(CompileBelow(op, vals, neutral).value, row, a) ==>
      Eval(CompileBelow(op, vals, neutral).value.sql, [], row) == True
  {
  }

  lemma VersionLeaf(op: Op, vals: seq<string>, row: Row, a: Answers)
    requires !Column(row, SOURCE).Num? && !Column(row, TITLE).Num?
    requires row.version != "" ==> VersionFound(row, row.version)
    ensures var l := CompileVersion(op, vals);
      && |l.args| == Marks(l.sql) && l.derived.Version?
      && (LeafHolds(l, row, a) <==> VersionHit(row.version, vals) != Negative(op))
      && (LeafHolds(l, row, a) ==> Eval(l.sql, l.args, row) == True)
  {
    VersionSuperset(vals, row);
    hide EvalAll, VersionParts, VersionArgs, VersionHit;
  }

  lemma SearchLeaf(cols: seq<string>, v: string, row: Row, a: Answers)
    requires forall i :: 0 <= i < |cols| ==> !Column(row, cols[i]).Num?
    ensures var l := CompileSearch(cols, v);
      && |l.args| == Marks(l.sql) && l.derived == Plain
      && (Eval(l.sql, l.args, row) == True <==>
        exists i :: 0 <= i < |cols| && LikePattern.Contains(TextOf(row, cols[i]), v))
  {
    LikesEval(cols, v, row);
  }

  /** One compiled condition answers exactly what the condition means, and its SQL part alone never
      loses a row it accepts. */
  lemma LeafExact(src: Source, c: Node, row: Row, a: Answers, neutral: bool)
    requires SourceOk(src) && c.Cond? && CondFits(src, c) && CompileLeaf(src, c, neutral).Some?
    requires RowOk(src, row, a)
    ensures var l := CompileLeaf(src, c, neutral).value;
      && |l.args| == Marks(l.sql)
      && (LeafHolds(l, row, a) <==> CondTruth(src, c, row, a, neutral))
      && (LeafHolds(l, row, a) ==> Eval(l.sql, l.args, row) == True)
      && (neutral ==> !l.derived.BelowEntry? && !l.derived.Latest?)
  {
    var f := src.fields[c.field];
    match f.kind
    case TextKind => { TextLeaf(f.col, c.op, c.vals, row); hide Eval, CompileText, TextTruth; }
    case DateKind => { DateLeaf(f.col, c.op, c.vals, row); hide Eval, CompileDate, TextTruth; }
    case NumberKind => { NumberLeaf(f.col, c.op, c.vals, row); hide Eval, CompileNumber, NumberTruth; }
    case InstantKind => { InstantLeaf(src, f.col, c.op, c.vals, row); hide Eval, CompileInstant, InstantTruth; }
    case SearchKind(cols) => { SearchLeaf(cols, c.vals[0], row, a); hide Eval, CompileSearch, LikePattern.Contains; }
    case VersionKind => { VersionLeaf(c.op, c.vals, row, a); hide Eval, CompileVersion, VersionHit; }
    case LatestKind => { YesNoLeaf(c.op, c.vals, row, a, neutral); hide YesNoTruth; }
    case BelowKind => { YesNoLeaf(c.op, c.vals, row, a, neutral); hide YesNoTruth; }
    case FlagKind => { FlagLeaf(f.col, c.op, c.vals, row); hide Eval, CompileFlag, FlagTruth; }
  }

  /** A condition the whitelist admits compiles, unless it is a yes/no or true/false condition with another
      word. */
  lemma FittingCompiles(src: Source, c: Node, neutral: bool)
    requires SourceOk(src) && c.Cond? && CondFits(src, c)
    ensures CompileLeaf(src, c, neutral).Some? <==> WordsFit(src.fields[c.field].kind, c.vals)
  {
    var f := src.fields[c.field];
    assert c.op in KindOps(f.kind);
    assert ValueFits(src, f.kind, c.vals[0]) && ValueFits(src, f.kind, c.vals[|c.vals| - 1]);
  }
}
