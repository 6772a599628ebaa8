/** What the batches add up to: the whole sorted list, and when they do not. */
module ExportScanExact {
  import opened Options
  import opened Seqs
  import opened SqlLogic
  import opened ExportScan

  /** The rows the WHERE keeps, newest first: what one unbatched query would list. */
  function Listing(table: seq<Rec>): seq<Rec> { Remaining(table, None) }

  function AfterFn(c: Cursor): Rec -> bool { (r: Rec) => After(c, r) }

  lemma ListingDescends(table: seq<Rec>, cur: Option<Cursor>)
    requires TableOk(table)
    ensures Descending(Remaining(table, cur))
    ensures forall r :: r in Remaining(table, cur) ==> r.id != Null
  {
    FilterTable(EligibleFrom(cur), table);
    SortDescends(Filter(EligibleFrom(cur), table));
    RemainingIn(table, cur);
  }

  /** Resuming after a row asks for the part of what remained that lies after it. */
  lemma RemainingNext(table: seq<Rec>, cur: Option<Cursor>, r: Rec, numeric: bool)
    requires TableOk(table) && r in Remaining(table, cur)
    ensures Remaining(table, Some(CursorOf(r, numeric))) == Filter(AfterFn(CursorOf(r, numeric)), Remaining(table, cur))
  {
    var c := CursorOf(r, numeric);
    var p, q := AfterFn(c), EligibleFrom(cur);
    RemainingIn(table, cur);
    FilterTable(q, table);
    FilterSort(p, Filter(q, table));
    FilterTwice(p, q, table);
    forall x | x in table ensures EligibleFrom(Some(c))(x) == Both(p, q)(x) {
      if After(c, x) { AfterNext(cur, r, x, numeric); }
    }
    FilterSame(EligibleFrom(Some(c)), Both(p, q), table);
  }

  lemma AfterIsBelow(a: Rec, x: Rec, numeric: bool)
    requires a.k1 != Null && a.id != Null && x.id != Null
    ensures After(CursorOf(a, numeric), x) <==> x.k1 != Null && KeyLess(x, a)
  {
  }

  lemma ReadNotAfter(m: seq<Rec>, j: nat, numeric: bool, x: Rec)
    requires Descending(m) && 0 < j <= |m| && m[j - 1].k1 != Null && x in m[..j]
    requires forall r :: r in m ==> r.id != Null
    ensures !After(CursorOf(m[j - 1], numeric), x)
  {
    var last := m[j - 1];
    var i :| 0 <= i < j && m[i] == x;
    assert x in m && last in m;
    AfterIsBelow(last, x, numeric);
    KeyOrder(last, x, last);
  }

  lemma UnreadAfter(m: seq<Rec>, j: nat, numeric: bool, x: Rec)
    requires Descending(m) && 0 < j <= |m| && m[j - 1].k1 != Null && x in m[j..]
    requires forall r :: r in m ==> r.id != Null
    ensures After(CursorOf(m[j - 1], numeric), x) <==> x.k1 != Null
  {
    var i :| j <= i < |m| && m[i] == x;
    assert x in m && m[j - 1] in m;
    AfterIsBelow(m[j - 1], x, numeric);
  }

  lemma SuffixAfter(m: seq<Rec>, j: nat, numeric: bool)
    requires Descending(m) && 0 < j <= |m| && m[j - 1].k1 != Null
    requires forall r :: r in m ==> r.id != Null
    ensures Filter(AfterFn(CursorOf(m[j - 1], numeric)), m) == NonNull(m[j..])
  {
    var p := AfterFn(CursorOf(m[j - 1], numeric));
    forall x | x in m[..j] ensures !p(x) { ReadNotAfter(m, j, numeric, x); }
    forall x | x in m[j..] ensures p(x) == (x.k1 != Null) { UnreadAfter(m, j, numeric, x); }
    FilterNone(p, m[..j]);
    FilterSame(p, (r: Rec) => r.k1 != Null, m[j..]);
    hide Descending, KeyLess, After, Filter;
    FilterSplit(p, m, j);
    assert [] + NonNull(m[j..]) == NonNull(m[j..]);
  }

  lemma FilterSplit(p: Rec -> bool, m: seq<Rec>, j: nat)
    requires j <= |m|
    ensures Filter(p, m) == Filter(p, m[..j]) + Filter(p, m[j..])
  {
    assert m == m[..j] + m[j..];
    FilterAppend(p, m[..j], m[j..]);
  }

  /** After a row of a resumed scan, exactly the following rows remain. */
  lemma TailStep(table: seq<Rec>, c: Cursor, j: nat, numeric: bool)
    requires TableOk(table) && 0 < j <= |Remaining(table, Some(c))|
    ensures var m := Remaining(table, Some(c));
      Remaining(table, Some(CursorOf(m[j - 1], numeric))) == m[j..]
  {
    var m := Remaining(table, Some(c));
    ListingDescends(table, Some(c));
    RemainingIn(table, Some(c));
    assert m[j - 1] in m;
    RemainingNext(table, Some(c), m[j - 1], numeric);
    SuffixAfter(m, j, numeric);
    hide Remaining, Descending, Filter;
    forall x | x in m[j..] ensures x.k1 != Null { assert x in m; }
    FilterAll((r: Rec) => r.k1 != Null, m[j..]);
  }

  /** Once a cursor is set, what remains has first keys, and the batches visit all of it in order. */
  lemma {:induction false} StaticTail(table: seq<Rec>, c: Cursor, batch: nat, maxBytes: nat, numeric: bool)
    requires TableOk(table) && batch >= 1
    ensures ScanFrom([table], Some(c), batch, maxBytes, numeric) == Accepted(Remaining(table, Some(c)))
    decreases |Remaining(table, Some(c))|
  {
    hide *;
    var cur := Some(c);
    var m, rows := Remaining(table, cur), Batch(table, cur, batch, maxBytes);
    BatchPrefix(table, cur, batch, maxBytes);
    ScanUnfolds([table], cur, batch, maxBytes, numeric, rows);
    if Continues(table, cur, batch, maxBytes) {
      var j := |rows|;
      SameTable(table);
      TailStep(table, c, j, numeric);
      RemainingShrinks(table, cur, m[j - 1], numeric);
      StaticTail(table, CursorOf(m[j - 1], numeric), batch, maxBytes, numeric);
      AcceptSplit(m, j);
    }
  }

  lemma SameTable(table: seq<Rec>)
    ensures Later([table]) == [table]
  {
  }

  /** A scan of an unchanging table: the first batch, and then everything after its last row. */
  lemma StaticScan(table: seq<Rec>, batch: nat, maxBytes: nat, numeric: bool)
    requires TableOk(table) && batch >= 1
    ensures var rows := Batch(table, None, batch, maxBytes);
      && rows <= Listing(table)
      && (if Continues(table, None, batch, maxBytes) then
            && rows != []
            && ScanFrom([table], None, batch, maxBytes, numeric)
               == Accepted(rows) + Accepted(Remaining(table, Some(CursorOf(rows[|rows| - 1], numeric))))
          else ScanFrom([table], None, batch, maxBytes, numeric) == Accepted(Listing(table)))
  {
    BatchPrefix(table, None, batch, maxBytes);
    var rows := Batch(table, None, batch, maxBytes);
    if rows != [] { StaticTail(table, CursorOf(rows[|rows| - 1], numeric), batch, maxBytes, numeric); }
  }

  /** Nothing is lost or repeated: the first batch is the only one, or it holds every accepted row
      without a first key, and when it ends on such a row no accepted row lies after the cursor that
      row is read back as. */
  predicate Lossless(table: seq<Rec>, batch: nat, maxBytes: nat, numeric: bool) {
    var rows := Batch(table, None, batch, maxBytes);
    Continues(table, None, batch, maxBytes) ==>
      && (forall r :: r in table && r.keep && r.accept && r.k1 == Null ==> r in rows)
      && (rows != [] && rows[|rows| - 1].k1 == Null ==>
          forall r :: r in table && r.keep && r.accept ==> !After(CursorOf(rows[|rows| - 1], numeric), r))
  }

  lemma {:induction false} AcceptedNonNull(s: seq<Rec>)
    ensures |Accepted(NonNull(s))| <= |Accepted(s)|
    ensures Accepted(NonNull(s)) == Accepted(s) <==> forall r :: r in s && r.accept ==> r.k1 != Null
    ensures |Accepted(NonNull(s))| == |Accepted(s)| ==> Accepted(NonNull(s)) == Accepted(s)
  {
    if s != [] {
      AcceptedNonNull(s[1..]);
      assert s == [s[0]] + s[1..];
    }
  }

  lemma MissingAfterMissing(m: seq<Rec>, j: nat)
    requires Descending(m) && 0 < j <= |m| && m[j - 1].k1 == Null
    ensures forall r :: r in m[j..] ==> r.k1 == Null
  {
    forall r | r in m[j..] ensures r.k1 == Null {
      var i :| j <= i < |m| && m[i] == r;
      assert KeyLess(m[i], m[j - 1]);
    }
  }

  lemma SplitMembers(m: seq<Rec>, j: nat, r: Rec)
    requires Descending(m) && j <= |m|
    ensures r in m <==> r in m[..j] || r in m[j..]
    ensures !(r in m[..j] && r in m[j..])
  {
    assert m == m[..j] + m[j..];
    if r in m[..j] && r in m[j..] {
      var i :| 0 <= i < j && m[i] == r;
      var k :| j <= k < |m| && m[k] == r;
      KeyOrder(r, r, r);
    }
  }

  lemma AcceptedIn(s: seq<Rec>)
    ensures forall r :: r in Accepted(s) <==> r in s && r.accept
  {
    FilterIn((r: Rec) => r.accept, s);
  }

  /** The scan theorem: reading a table in batches of any size and any size cap visits exactly the rows
      the filter accepts, in descending key order, if and only if it is lossless. */
  lemma ScanExactly(table: seq<Rec>, batch: nat, maxBytes: nat, numeric: bool)
    requires TableOk(table) && batch >= 1
    ensures ScanFrom([table], None, batch, maxBytes, numeric) == Accepted(Listing(table))
            <==> Lossless(table, batch, maxBytes, numeric)
  {
    hide ScanFrom, Remaining, Batch, Continues, Accepted, TableOk, Descending, After;
    StaticScan(table, batch, maxBytes, numeric);
    if Continues(table, None, batch, maxBytes) {
      var m, rows := Listing(table), Batch(table, None, batch, maxBytes);
      var j := |rows|;
      var c := CursorOf(rows[j - 1], numeric);
      assert rows == m[..j] && rows[j - 1] == m[j - 1];
      ListingDescends(table, None);
      RemainingIn(table, None);
      AcceptSplit(m, j);
      Cancel(Accepted(rows), Accepted(Remaining(table, Some(c))), Accepted(m[j..]));
      if m[j - 1].k1 != Null {
        TailWithKey(table, j, numeric);
      } else {
        TailWithoutKey(table, j, numeric);
      }
    }
  }

  lemma TailWithKey(table: seq<Rec>, j: nat, numeric: bool)
    requires TableOk(table) && 0 < j <= |Listing(table)| && Listing(table)[j - 1].k1 != Null
    ensures var m := Listing(table);
      Accepted(Remaining(table, Some(CursorOf(m[j - 1], numeric)))) == Accepted(m[j..]) <==>
      forall r :: r in table && r.keep && r.accept && r.k1 == Null ==> r in m[..j]
  {
    var m := Listing(table);
    ListingDescends(table, None);
    RemainingIn(table, None);
    RemainingNext(table, None, m[j - 1], numeric);
    SuffixAfter(m, j, numeric);
    AcceptedNonNull(m[j..]);
    hide Filter, Sort, Remaining, Accepted, NonNull, TableOk, KeyLess;
    forall r | r in m ensures (r in m[..j]) != (r in m[j..]) { SplitMembers(m, j, r); }
  }

  lemma TailWithoutKey(table: seq<Rec>, j: nat, numeric: bool)
    requires TableOk(table) && 0 < j <= |Listing(table)| && Listing(table)[j - 1].k1 == Null
    ensures var m := Listing(table); var c := CursorOf(m[j - 1], numeric);
      Accepted(Remaining(table, Some(c))) == Accepted(m[j..]) <==>
      && (forall r :: r in table && r.keep && r.accept && r.k1 == Null ==> r in m[..j])
      && (forall r :: r in table && r.keep && r.accept ==> !After(c, r))
  {
    var m := Listing(table);
    var c := CursorOf(m[j - 1], numeric);
    ListingDescends(table, None);
    RemainingIn(table, None);
    RemainingIn(table, Some(c));
    MissingAfterMissing(m, j);
    AcceptedIn(Remaining(table, Some(c)));
    AcceptedIn(m[j..]);
    TailAccepted(table, c);
    SuffixAccepted(table, j);
    hide *;
    Disjoint(Accepted(Remaining(table, Some(c))), Accepted(m[j..]));
  }

  lemma TailAccepted(table: seq<Rec>, c: Cursor)
    ensures Accepted(Remaining(table, Some(c))) == [] <==> forall r :: r in table && r.keep && r.accept ==> !After(c, r)
    ensures forall r :: r in Accepted(Remaining(table, Some(c))) ==> r.k1 != Null
  {
    var a := Accepted(Remaining(table, Some(c)));
    RemainingIn(table, Some(c));
    AcceptedIn(Remaining(table, Some(c)));
    NoMembers(a);
    hide Remaining, Accepted, Filter;
    if a == [] {
      forall r | r in table && r.keep && r.accept ensures !After(c, r) { assert r !in a; }
    } else {
      assert a[0] in a && After(c, a[0]);
    }
  }

  lemma SuffixAccepted(table: seq<Rec>, j: nat)
    requires TableOk(table) && 0 < j <= |Listing(table)| && Listing(table)[j - 1].k1 == Null
    ensures var m := Listing(table);
      && (Accepted(m[j..]) == [] <==> forall r :: r in table && r.keep && r.accept && r.k1 == Null ==> r in m[..j])
      && forall r :: r in Accepted(m[j..]) ==> r.k1 == Null
  {
    var m := Listing(table);
    ListingDescends(table, None);
    RemainingIn(table, None);
    MissingAfterMissing(m, j);
    var b := Accepted(m[j..]);
    AcceptedIn(m[j..]);
    NoMembers(b);
    forall r | r in m ensures (r in m[..j]) != (r in m[j..]) { SplitMembers(m, j, r); }
    hide Filter, Sort, Remaining, Accepted, TableOk, KeyLess;
    if b == [] {
      forall r | r in table && r.keep && r.accept && r.k1 == Null ensures r in m[..j] { assert r !in b; }
    } else {
      var r := b[0];
      assert r in b && r in m[j..] && r !in m[..j];
      assert r in m;
    }
  }

  lemma Cancel(p: seq<Rec>, a: seq<Rec>, b: seq<Rec>)
    ensures p + a == p + b <==> a == b
  {
    if p + a == p + b {
      assert a == (p + a)[|p|..] && b == (p + b)[|p|..];
    }
  }

  lemma Disjoint(a: seq<Rec>, b: seq<Rec>)
    requires forall r :: r in a ==> r !in b
    ensures a == b <==> a == [] && b == []
  {
    if a != [] { assert a[0] in a; }
    if b != [] { assert b[0] in b; }
  }

  lemma NoMembers(s: seq<Rec>)
    ensures s == [] <==> forall r :: r !in s
  {
    if s != [] { assert s[0] in s; }
  }

  /** Where every row has a first key, nothing is ever lost. */
  lemma KeyedIsLossless(table: seq<Rec>, batch: nat, maxBytes: nat, numeric: bool)
    requires batch >= 1 && forall r :: r in table ==> r.k1 != Null
    ensures Lossless(table, batch, maxBytes, numeric)
  {
    BatchPrefix(table, None, batch, maxBytes);
    RemainingIn(table, None);
    var rows := Batch(table, None, batch, maxBytes);
    if rows != [] { assert rows[|rows| - 1] in Remaining(table, None); }
  }

  const OLDER := Rec(Null, Num(1), 0, true, true)
  const NEWER := Rec(Null, Num(2), 0, true, true)

  /** Two rows without a first key. */
  const UNKEYED := [OLDER, NEWER]

  lemma UnkeyedListing()
    ensures TableOk(UNKEYED) && Listing(UNKEYED) == [NEWER, OLDER] && Batch(UNKEYED, None, 1, 0) == [NEWER]
  {
    FilterAll(EligibleFrom(None), UNKEYED);
    assert [NEWER][1..] == [] && UNKEYED[1..] == [NEWER];
    assert KeyLess(OLDER, NEWER) && !KeyLess(NEWER, OLDER);
    assert Sort([]) == [] && Sort([NEWER]) == [NEWER];
    assert Insert(OLDER, [NEWER]) == [NEWER] + Insert(OLDER, []);
    assert Take([NEWER, OLDER], 1) == [NEWER];
  }

  /** The failing case: with batches of one, the older of two rows without a first key is lost. */
  lemma MissingKeyLost()
    ensures TableOk(UNKEYED) && !Lossless(UNKEYED, 1, 0, false)
    ensures Accepted(Listing(UNKEYED)) == [NEWER, OLDER] && ScanFrom([UNKEYED], None, 1, 0, false) == [NEWER]
  {
    UnkeyedListing();
    FilterAll((r: Rec) => r.accept, [NEWER, OLDER]);
    FilterAll((r: Rec) => r.accept, [NEWER]);
    assert OLDER in UNKEYED && OLDER !in [NEWER];
    StaticScan(UNKEYED, 1, 0, false);
    TailAccepted(UNKEYED, CursorOf(NEWER, false));
    hide Listing, Batch, Remaining, Filter, ScanFrom;
    assert [NEWER] + [] == [NEWER];
  }
}
