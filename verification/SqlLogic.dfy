/** The part of SQL the compiled filters use: conditions over one row with positional arguments, under
    three-valued logic. */
module SqlLogic {
  import LikePattern
  import TextOrder

  datatype Value = Null | Num(n: int) | Text(s: string)

  /** entries: the entry prices claimed by a forecast, in stored order. version: the generator version
      parsed from a report's source or title, "" when there is none. */
  datatype Row = Row(cols: map<string, Value>, entries: seq<int>, version: string)

  function Column(row: Row, name: string): Value {
    if name in row.cols then row.cols[name] else Null
  }

  datatype Term = Col(name: string) | Coalesce(name: string, alt: Value)

  function TermValue(t: Term, row: Row): Value {
    match t
    case Col(name) => Column(row, name)
    case Coalesce(name, alt) => if Column(row, name) == Null then alt else Column(row, name)
  }

  datatype CmpOp = Eq | Ne | Lt | Le | Gt | Ge

  datatype Sql =
    | Always
    | Cmp(t: Term, op: CmpOp)
    | NotEmpty(t: Term)
    | InList(t: Term, n: nat, negated: bool)
    | Like(t: Term)
    | HasEntry
    | Join(and: bool, parts: seq<Sql>)

  /** How many argument marks the text holds. */
  function Marks(q: Sql): nat {
    match q
    case Always => 0
    case Cmp(_, _) => 1
    case NotEmpty(_) => 0
    case InList(_, n, _) => n
    case Like(_) => 1
    case HasEntry => 0
    case Join(_, parts) => MarksAll(parts)
  }

  function MarksAll(parts: seq<Sql>): nat {
    if parts == [] then 0 else Marks(parts[0]) + MarksAll(parts[1..])
  }

  datatype Tri = True | False | Unknown

  function Truth(b: bool): Tri { if b then True else False }

  function Not(a: Tri): Tri { match a case True => False case False => True case Unknown => Unknown }

  function And(a: Tri, b: Tri): Tri {
    if a == False || b == False then False else if a == True && b == True then True else Unknown
  }

  function Or(a: Tri, b: Tri): Tri { Not(And(Not(a), Not(b))) }

  /** Numbers sort before text, as the database compares mixed values. */
  predicate Below(a: Value, b: Value) {
    match (a, b)
    case (Num(x), Num(y)) => x < y
    case (Text(x), Text(y)) => TextOrder.Less(x, y)
    case (Num(_), Text(_)) => true
    case _ => false
  }

  function Compare(op: CmpOp, a: Value, b: Value): Tri {
    if a == Null || b == Null then Unknown
    else Truth(match op
      case Eq => a == b
      case Ne => a != b
      case Lt => Below(a, b)
      case Le => !Below(b, a)
      case Gt => Below(b, a)
      case Ge => !Below(a, b))
  }

  function Member(a: Value, list: seq<Value>): Tri {
    if list == [] then False else Or(Compare(Eq, a, list[0]), Member(a, list[1..]))
  }

  function LikeValue(a: Value, pattern: Value): Tri {
    match (a, pattern)
    case (Text(t), Text(p)) => Truth(LikePattern.Matches(p, t))
    case _ => Unknown
  }

  /** The marks take the arguments in the order the text names them. */
  function Eval(q: Sql, args: seq<Value>, row: Row): Tri
    requires |args| == Marks(q)
    decreases q
  {
    match q
    case Always => True
    case Cmp(t, op) => Compare(op, TermValue(t, row), args[0])
    case NotEmpty(t) => Compare(Ne, TermValue(t, row), Text(""))
    case InList(t, _, negated) =>
      var hit := Member(TermValue(t, row), args);
      if negated then Not(hit) else hit
    case Like(t) => LikeValue(TermValue(t, row), args[0])
    case HasEntry => Truth(exists i :: 0 <= i < |row.entries| && row.entries[i] > 0)
    case Join(and, parts) => EvalAll(and, parts, args, row)
  }

  function EvalAll(and: bool, parts: seq<Sql>, args: seq<Value>, row: Row): Tri
    requires |args| == MarksAll(parts)
    decreases parts
  {
    if parts == [] then Truth(and)
    else
      var k := Marks(parts[0]);
      var first := Eval(parts[0], args[..k], row);
      var rest := EvalAll(and, parts[1..], args[k..], row);
      if and then And(first, rest) else Or(first, rest)
  }

  /** Between values that are not missing, IN is membership. */
  lemma {:induction false} MemberExactly(v: Value, list: seq<Value>)
    requires v != Null && forall i :: 0 <= i < |list| ==> list[i] != Null
    ensures Member(v, list) == Truth(v in list)
  {
    if list != [] {
      MemberExactly(v, list[1..]);
      assert list == [list[0]] + list[1..];
    }
  }
}
