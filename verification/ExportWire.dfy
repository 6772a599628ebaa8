/** What a filter means as it arrives, item by item and word by word, and that every later form of it means
    the same. */
module ExportWire {
  import opened Options
  import opened Seqs
  import opened SqlLogic
  import opened ExportFilter
  import opened ExportCompile
  import Civil
  import Decimal
  import LikePattern
  import TextOrder

  // ---------- what the words of a condition say ----------

  /** Dates compare as texts: "after" and "between" take in the days they name, and a missing date is before
      nothing. */
  predicate TextSays(t: string, word: string, vals: seq<string>)
    requires vals != []
  {
    || (word == "is" && t == vals[0])
    || (word == "is_not" && t != vals[0])
    || (word == "in" && exists i :: 0 <= i < |vals| && t == vals[i])
    || (word == "not_in" && forall i :: 0 <= i < |vals| ==> t != vals[i])
    || (word == "contains" && LikePattern.Occurs(t, vals[0]))
    || (word == "before" && t != "" && TextOrder.Less(t, vals[0]))
    || (word == "after" && (t == vals[0] || TextOrder.Less(vals[0], t)))
    || (word == "between" && |vals| == 2
        && (t == vals[0] || TextOrder.Less(vals[0], t)) && (t == vals[1] || TextOrder.Less(t, vals[1])))
  }

  predicate NumberSays(n: int, word: string, vals: seq<string>)
    requires vals != []
  {
    var a, b := Decimal.ParseInt(vals[0]), Decimal.ParseInt(vals[|vals| - 1]);
    && a.Some? && b.Some?
    && (|| (word == "is" && n == a.value)
        || (word == "is_not" && n != a.value)
        || (word == "before" && n < a.value)
        || (word == "after" && n > a.value)
        || (word == "between" && a.value <= n <= b.value))
  }

  /** An instant before a day is before its first instant, one after a day is any from its first instant on,
      and a range that ends on a day holds the whole day. */
  predicate InstantSays(src: Source, v: Value, word: string, vals: seq<string>)
    requires vals != []
  {
    var a, b := src.instant(vals[0]), src.instant(vals[|vals| - 1]);
    && v.Num? && a.Some? && b.Some?
    && (|| (word == "before" && v.n < a.value.lo)
        || (word == "after" && (v.n > a.value.lo || (a.value.dayOnly && v.n == a.value.lo)))
        || (word == "between" && v.n >= a.value.lo
            && if b.value.dayOnly then v.n < b.value.hi else v.n <= b.value.lo))
  }

  /** A report without a version has the empty one. */
  predicate VersionSays(version: string, word: string, vals: seq<string>) {
    Affirms(word) ==
      exists i :: 0 <= i < |vals| && |version| == |vals[i]| && LikePattern.StandsAt(version, 0, vals[i])
  }

  predicate Affirms(word: string) { word == "is" || word == "in" }

  /** Admitting both answers restricts nothing, and any other condition asks for the answer "yes" decides. */
  predicate YesNoSays(answer: bool, word: string, vals: seq<string>) {
    var yes, no := ("yes" in vals) == Affirms(word), ("no" in vals) == Affirms(word);
    (yes && no) || answer == yes
  }

  /** A stored flag that is 1 answers "true", one that is 0 "false". */
  predicate FlagSays(n: int, word: string, vals: seq<string>) {
    Affirms(word) == ((n == 1 && "true" in vals) || (n == 0 && "false" in vals))
  }

  /** A condition on one row. neutral takes the two questions SQL cannot ask as answered to suit. */
  predicate CondSays(src: Source, w: Wire, row: Row, a: Answers, neutral: bool)
    requires w.field in src.fields && w.vals != []
  {
    var f := src.fields[w.field];
    match f.kind
    case TextKind => TextSays(TextOf(row, f.col), w.operator, w.vals)
    case DateKind => TextSays(TextOf(row, f.col), w.operator, w.vals)
    case NumberKind => NumberSays(NumberOf(row, f.col), w.operator, w.vals)
    case InstantKind => InstantSays(src, Column(row, f.col), w.operator, w.vals)
    case SearchKind(cols) => exists i :: 0 <= i < |cols| && LikePattern.Occurs(TextOf(row, cols[i]), w.vals[0])
    case VersionKind => VersionSays(row.version, w.operator, w.vals)
    case LatestKind => neutral || YesNoSays(a.latest, w.operator, w.vals)
    case BelowKind => neutral || YesNoSays(a.below, w.operator, w.vals)
    case FlagKind => FlagSays(NumberOf(row, f.col), w.operator, w.vals)
  }

  /** What a filter as it arrives says of a row: "and" asks for every item, "or" for one of them, and a group
      without items, like an absent filter, asks for nothing. */
  predicate WireSays(src: Source, w: Wire, row: Row, a: Answers, neutral: bool)
    decreases w
  {
    if w.op == "and" then forall i :: 0 <= i < |w.items| ==> WireSays(src, w.items[i], row, a, neutral)
    else if w.op == "or" then
      w.items == [] || exists i :: 0 <= i < |w.items| && WireSays(src, w.items[i], row, a, neutral)
    else if w.field == "" then true
    else w.field in src.fields && w.vals != [] && CondSays(src, w, row, a, neutral)
  }

  // ---------- which filters are accepted ----------

  /** Every group and condition of a filter, outer before inner. */
  function Entries(w: Wire): seq<Wire> { [w] + if w.op != "" then EntriesIn(w.items) else [] }
  function EntriesIn(items: seq<Wire>): seq<Wire> {
    if items == [] then [] else Entries(items[0]) + EntriesIn(items[1..])
  }

  /** How many groups lie around and inside each other at most. */
  function Depth(w: Wire): nat { if w.op == "" then 0 else 1 + DeepestIn(w.items) }
  function DeepestIn(items: seq<Wire>): nat {
    if items == [] then 0
    else if Depth(items[0]) > DeepestIn(items[1..]) then Depth(items[0]) else DeepestIn(items[1..])
  }

  /** What one part has to be, whatever stands around it. */
  predicate Proper(src: Source, w: Wire) {
    if w.op != "" then (w.op == "and" || w.op == "or") && w.field == "" && w.operator == "" && w.vals == []
    else
      && w.field != "" && w.items == [] && w.field in src.fields
      && (exists op :: op in src.fields[w.field].ops && Word(op) == w.operator)
      && (if w.operator == "between" then |w.vals| == 2
          else if w.operator == "in" || w.operator == "not_in" then 1 <= |w.vals| <= 200
          else |w.vals| == 1)
      && forall i :: 0 <= i < |w.vals| ==>
        Utf8Len(w.vals[i]) <= 256 && WellFormed(src, src.fields[w.field].kind, w.vals[i])
  }

  /** A date names a day, an instant and a number are read as such. */
  predicate WellFormed(src: Source, k: Kind, v: string) {
    && (k.DateKind? ==> Civil.IsDateText(v))
    && (k.InstantKind? ==> src.instant(v).Some?)
    && (k.NumberKind? ==> Decimal.ParseInt(v).Some?)
  }

  // ---------- the words are kept ----------

  /** The word of an operator. */
  function Word(op: Op): string {
    match op
    case Is => "is"
    case IsNot => "is_not"
    case In => "in"
    case NotIn => "not_in"
    case Contains => "contains"
    case Before => "before"
    case After => "after"
    case Between => "between"
  }

  lemma WordRead(s: string, op: Op)
    ensures OpOf(s) == Some(op) <==> s == Word(op)
  {
  }

  lemma TextKept(t: string, op: Op, vals: seq<string>)
    requires ArityFits(op, |vals|)
    ensures TextTruth(t, op, vals) <==> TextSays(t, Word(op), vals)
  {
    assert t in vals <==> exists i :: 0 <= i < |vals| && t == vals[i];
    TextOrder.Total(t, vals[0]);
    TextOrder.Asymmetric(t, vals[0]);
    TextOrder.Irreflexive(t);
    TextOrder.Total(t, vals[|vals| - 1]);
    TextOrder.Asymmetric(t, vals[|vals| - 1]);
    if op == Contains { LikePattern.ContainsOccurs(t, vals[0]); }
    hide TextOrder.Less, LikePattern.Contains, LikePattern.Occurs;
  }

  lemma VersionKept(version: string, op: Op, vals: seq<string>)
    requires op in KindOps(VersionKind)
    ensures VersionHit(version, vals) != Negative(op) <==> VersionSays(version, Word(op), vals)
  {
    forall i | 0 <= i < |vals|
      ensures LikePattern.SameFold(version, vals[i])
              <==> |version| == |vals[i]| && LikePattern.StandsAt(version, 0, vals[i])
    {
      LikePattern.SameFoldExactly(version, vals[i]);
    }
    hide LikePattern.SameFold, LikePattern.StandsAt;
  }

  lemma NumberKept(n: int, op: Op, vals: seq<string>)
    requires ArityFits(op, |vals|) && op in KindOps(NumberKind)
    requires Decimal.ParseInt(vals[0]).Some? && Decimal.ParseInt(vals[|vals| - 1]).Some?
    ensures NumberTruth(n, op, Decimal.ParseInt(vals[0]).value, Decimal.ParseInt(vals[|vals| - 1]).value)
            <==> NumberSays(n, Word(op), vals)
  {
    hide Decimal.ParseInt;
  }

  lemma InstantKept(src: Source, v: Value, op: Op, vals: seq<string>)
    requires ArityFits(op, |vals|) && op in KindOps(InstantKind)
    requires src.instant(vals[0]).Some? && src.instant(vals[|vals| - 1]).Some?
    ensures InstantTruth(v, op, src.instant(vals[0]).value, src.instant(vals[|vals| - 1]).value)
            <==> InstantSays(src, v, Word(op), vals)
  {
  }

  lemma AnswersKept(answer: bool, op: Op, vals: seq<string>)
    requires op in KindOps(FlagKind)
    ensures Affirms(Word(op)) == !Negative(op)
    ensures YesNoTruth(answer, op, vals) <==> YesNoSays(answer, Word(op), vals)
  {
  }

  lemma FlagKept(n: int, op: Op, vals: seq<string>)
    requires op in KindOps(FlagKind) && FlagValues(vals)
    ensures FlagTruth(n, op, vals) <==> FlagSays(n, Word(op), vals)
  {
  }

  /** The compiled reading of one condition is what its words say. */
  lemma CondKept(src: Source, w: Wire, row: Row, a: Answers, neutral: bool)
    requires SourceOk(src) && w.op == "" && w.field != "" && OpOf(w.operator).Some? && CondFits(src, ToNode(w))
    requires WordsFit(src.fields[w.field].kind, w.vals)
    ensures CondTruth(src, ToNode(w), row, a, neutral) <==> WireSays(src, w, row, a, neutral)
  {
    var f, op := src.fields[w.field], OpOf(w.operator).value;
    WordRead(w.operator, op);
    assert op in KindOps(f.kind);
    assert ValueFits(src, f.kind, w.vals[0]) && ValueFits(src, f.kind, w.vals[|w.vals| - 1]);
    if f.kind.TextKind? || f.kind.DateKind? { TextKept(TextOf(row, f.col), op, w.vals); }
    else if f.kind.NumberKind? { NumberKept(NumberOf(row, f.col), op, w.vals); }
    else if f.kind.InstantKind? { InstantKept(src, Column(row, f.col), op, w.vals); }
    else if f.kind.FlagKind? { FlagKept(NumberOf(row, f.col), op, w.vals); }
    else if f.kind.VersionKind? { VersionKept(row.version, op, w.vals); }
    else if f.kind.SearchKind? {
      forall i | 0 <= i < |f.kind.cols| {
        LikePattern.ContainsOccurs(TextOf(row, f.kind.cols[i]), w.vals[0]);
      }
    }
    else {
      AnswersKept(a.latest, op, w.vals);
      AnswersKept(a.below, op, w.vals);
    }
    hide OpOf, TextTruth, TextSays, NumberTruth, NumberSays, InstantTruth, InstantSays, FlagTruth, FlagSays,
         YesNoTruth, YesNoSays, ValueFits, VersionHit, VersionSays, LikePattern.Contains, LikePattern.Occurs;
  }

  /** The tree that is compiled means what the filter says as it arrives. */
  lemma {:induction false} WireKept(src: Source, w: Wire, depth: nat, row: Row, a: Answers, neutral: bool)
    requires SourceOk(src) && WellShaped(src, w, depth) && Worded(src, ToNode(w))
    ensures Fits(src, ToNode(w))
    ensures Truthful(src, ToNode(w), row, a, neutral) <==> WireSays(src, w, row, a, neutral)
    decreases w
  {
    ShapedFits(src, w, depth);
    if w.op == "" {
      CondKept(src, w, row, a, neutral);
    } else {
      var n := ToNode(w);
      forall i | 0 <= i < |w.items|
        ensures Truthful(src, n.items[i], row, a, neutral) <==> WireSays(src, w.items[i], row, a, neutral)
      {
        WireKept(src, w.items[i], depth + 1, row, a, neutral);
      }
    }
  }

  // ---------- the limits are kept ----------

  lemma CondProper(src: Source, w: Wire)
    requires w.op == ""
    ensures Proper(src, w) <==> WellShaped(src, w, 1)
    ensures forall depth: nat :: WellShaped(src, w, depth) <==> WellShaped(src, w, 1)
  {
    if OpOf(w.operator).Some? { WordRead(w.operator, OpOf(w.operator).value); }
    forall op ensures OpOf(w.operator) == Some(op) <==> Word(op) == w.operator { WordRead(w.operator, op); }
    if w.field in src.fields {
      var k := src.fields[w.field].kind;
      forall i | 0 <= i < |w.vals|
        ensures ValueFits(src, k, w.vals[i]) <==> Utf8Len(w.vals[i]) <= 256 && WellFormed(src, k, w.vals[i])
      {
      }
    }
    hide ValueFits, WellFormed, Utf8Len, OpOf, Civil.IsDateText, Decimal.ParseInt;
  }

  lemma {:induction false} ShapedExactly(src: Source, w: Wire, depth: nat)
    ensures WellShaped(src, w, depth)
            <==> (forall p :: p in Entries(w) ==> Proper(src, p)) && (Depth(w) == 0 || depth + Depth(w) <= 4)
    decreases w, 1
  {
    if w.op == "" {
      CondProper(src, w);
    } else {
      AllShapedExactly(src, w.items, depth + 1);
      assert forall p :: p in Entries(w) <==> p == w || p in EntriesIn(w.items);
      assert (forall p :: p in Entries(w) ==> Proper(src, p))
        <==> Proper(src, w) && forall p :: p in EntriesIn(w.items) ==> Proper(src, p);
    }
  }

  lemma {:induction false} AllShapedExactly(src: Source, items: seq<Wire>, depth: nat)
    ensures (forall i :: 0 <= i < |items| ==> WellShaped(src, items[i], depth))
            <==> (forall p :: p in EntriesIn(items) ==> Proper(src, p))
                 && (DeepestIn(items) == 0 || depth + DeepestIn(items) <= 4)
    decreases items, 0
  {
    if items != [] {
      var rest := items[1..];
      ShapedExactly(src, items[0], depth);
      AllShapedExactly(src, rest, depth);
      hide WellShaped, Proper;
      assert forall p :: p in EntriesIn(items) <==> p in Entries(items[0]) || p in EntriesIn(rest);
      assert forall i :: 0 < i < |items| ==> items[i] == rest[i - 1];
    }
  }

  predicate IsCondition(w: Wire) { w.op == "" }

  /** The length of a value counts the bytes of its UTF-8 form: one to four per character, by its code point. */
  lemma {:induction false} Utf8Counts(a: string, c: char)
    ensures Utf8Len(a + [c]) == Utf8Len(a) + Utf8Len([c])
    ensures var code := c as int;
      Utf8Len([c]) == if code <= 0x7f then 1 else if code <= 0x7ff then 2 else if code <= 0xffff then 3 else 4
  {
    assert [c][1..] == "";
    if a == "" {
      assert a + [c] == [c];
    } else {
      Utf8Counts(a[1..], c);
      assert (a + [c])[0] == a[0] && (a + [c])[1..] == a[1..] + [c];
    }
  }

  function Conditions(s: seq<Wire>): seq<Wire> { Filter(IsCondition, s) }

  lemma {:induction false} EntriesCounted(w: Wire)
    ensures Nodes(w) == |Entries(w)| && Conds(w) == |Conditions(Entries(w))|
    decreases w, 1
  {
    FilterOne(IsCondition, w);
    if w.op != "" {
      EntriesInCounted(w.items);
      FilterAppend(IsCondition, [w], EntriesIn(w.items));
    } else {
      assert Entries(w) == [w];
    }
  }

  lemma {:induction false} EntriesInCounted(items: seq<Wire>)
    ensures NodesIn(items) == |EntriesIn(items)| && CondsIn(items) == |Conditions(EntriesIn(items))|
    decreases items, 0
  {
    if items != [] {
      EntriesCounted(items[0]);
      EntriesInCounted(items[1..]);
      FilterAppend(IsCondition, Entries(items[0]), EntriesIn(items[1..]));
    }
  }

  /** A filter is admitted exactly when it is a group of at most 50 groups and conditions, at most 20 of them
      conditions, no more than three groups deep, with every part proper. */
  lemma AdmittedExactly(src: Source, root: Wire)
    ensures Admissible(src, root) <==>
      && root.op != "" && |Entries(root)| <= 50 && |Conditions(Entries(root))| <= 20 && Depth(root) <= 3
      && forall p :: p in Entries(root) ==> Proper(src, p)
  {
    EntriesCounted(root);
    ShapedExactly(src, root, 1);
    hide WellShaped, Proper;
  }
}
