/** Retention of reports: keys are scanned once with the exact sent_at that made them old, and deleted in
    chunks that assert that text again, while reports keep being ingested. */
module ReportRetention {
  import FiniteSets
  import opened Options
  import opened Seqs

  /** A row that belongs to a report: a viewer, a tracking item or a revision. */
  datatype Dependent = Dependent(report: int, body: string)

  /** sent_at by report id; a prediction set's link to its report, None once nulled. */
  datatype Tables = Tables(reports: map<int, Option<string>>, viewers: seq<Dependent>, tracking: seq<Dependent>,
                           revisions: seq<Dependent>, sets: map<int, Option<int>>)

  datatype Key = Key(id: int, sent: string)

  const CHUNK := 500

  /** Reads a text as an instant; a date alone, an empty or a malformed text is none. */
  type Reader = string -> Option<int>

  predicate Old(parse: Reader, sent: string, cutoff: int) {
    parse(sent).Some? && parse(sent).value < cutoff
  }

  predicate Matches(t: Tables, k: Key) { k.id in t.reports && t.reports[k.id] == Some(k.sent) }

  /** The reports a chunk takes away: listed with the text they still carry. */
  function Gone(t: Tables, keys: seq<Key>): set<int> {
    set i | 0 <= i < |keys| && Matches(t, keys[i]) :: keys[i].id
  }

  function Outside(ids: set<int>): Dependent -> bool { (d: Dependent) => d.report !in ids }

  /** The tables without some reports: their dependents go with them, their prediction sets stay with
      the link nulled. */
  function Cleared(t: Tables, ids: set<int>): Tables {
    Tables(t.reports - ids, Filter(Outside(ids), t.viewers), Filter(Outside(ids), t.tracking),
           Filter(Outside(ids), t.revisions),
           map s | s in t.sets :: if t.sets[s].Some? && t.sets[s].value in ids then None else t.sets[s])
  }

  predicate DistinctIds(keys: seq<Key>) { forall i, j :: 0 <= i < j < |keys| ==> keys[i].id != keys[j].id }

  lemma ClearedTwice(t: Tables, a: set<int>, id: int)
    ensures Cleared(Cleared(t, a), {id}) == Cleared(t, a + {id})
  {
    var once, both := Cleared(Cleared(t, a), {id}), Cleared(t, a + {id});
    assert once.reports == both.reports;
    assert once.sets == both.sets;
    FilterAgain(id, a, t.viewers);
    FilterAgain(id, a, t.tracking);
    FilterAgain(id, a, t.revisions);
  }

  lemma FilterAgain(id: int, a: set<int>, s: seq<Dependent>)
    ensures Filter(Outside({id}), Filter(Outside(a), s)) == Filter(Outside(a + {id}), s)
  {
    FilterTwice(Outside({id}), Outside(a), s);
    FilterSame(Both(Outside({id}), Outside(a)), Outside(a + {id}), s);
  }

  lemma ClearedNone(t: Tables)
    ensures Cleared(t, {}) == t
  {
    assert Cleared(t, {}).reports == t.reports;
    assert Cleared(t, {}).sets == t.sets;
    FilterAll(Outside({}), t.viewers);
    FilterAll(Outside({}), t.tracking);
    FilterAll(Outside({}), t.revisions);
  }

  lemma GoneStep(t: Tables, keys: seq<Key>, i: nat)
    requires i < |keys| && DistinctIds(keys)
    ensures Gone(t, keys[..i + 1]) == Gone(t, keys[..i]) + if Matches(t, keys[i]) then {keys[i].id} else {}
    ensures keys[i].id !in Gone(t, keys[..i])
    ensures Matches(Cleared(t, Gone(t, keys[..i])), keys[i]) <==> Matches(t, keys[i])
  {
    var a, b := keys[..i], keys[..i + 1];
    assert forall k :: 0 <= k < i ==> a[k] == keys[k] && b[k] == keys[k];
    assert b[i] == keys[i];
    forall id | id in Gone(t, b) ensures id in Gone(t, a) || (Matches(t, keys[i]) && id == keys[i].id) {
      var k :| 0 <= k < |b| && Matches(t, b[k]) && b[k].id == id;
      if k < i { assert a[k] == b[k]; }
    }
    forall id | id in Gone(t, a) ensures id in Gone(t, b) {
      var k :| 0 <= k < |a| && Matches(t, a[k]) && a[k].id == id;
      assert b[k] == a[k];
    }
  }

  /** The keys of reports old at the scan. */
  function OldIds(t: Tables, parse: Reader, cutoff: int): set<int> {
    set id | id in t.reports && id != 0 && t.reports[id].Some? && Old(parse, t.reports[id].value, cutoff)
  }

  function KeyIds(keys: seq<Key>): set<int> { set i | 0 <= i < |keys| :: keys[i].id }

  /** Exactly the reports old at the scan, each once, with the text that made it old. */
  predicate Scanned(t: Tables, parse: Reader, cutoff: int, keys: seq<Key>) {
    && DistinctIds(keys)
    && KeyIds(keys) == OldIds(t, parse, cutoff)
    && forall i :: 0 <= i < |keys| ==> Matches(t, keys[i])
  }

  lemma OneMoreKey(keys: seq<Key>, k: Key)
    requires DistinctIds(keys) && k.id !in KeyIds(keys)
    ensures DistinctIds(keys + [k]) && KeyIds(keys + [k]) == KeyIds(keys) + {k.id}
  {
    var more := keys + [k];
    assert more[|keys|] == k;
    forall i | 0 <= i < |keys| ensures more[i].id in KeyIds(keys) && more[i] == keys[i] {}
    forall id | id in KeyIds(keys) + {k.id} ensures id in KeyIds(more) {
      if id in KeyIds(keys) {
        var i :| 0 <= i < |keys| && keys[i].id == id;
        assert more[i].id == id;
      }
    }
  }

  lemma {:induction false} AsManyKeys(keys: seq<Key>)
    requires DistinctIds(keys)
    ensures |KeyIds(keys)| == |keys|
  {
    if keys != [] {
      var n := |keys| - 1;
      var front := keys[..n];
      AsManyKeys(front);
      forall i | 0 <= i < n ensures front[i].id != keys[n].id {}
      OneMoreKey(front, keys[n]);
      assert keys == front + [keys[n]];
    }
  }

  /** The keys of everything but the reports still to be looked at. */
  predicate ScannedBut(t: Tables, parse: Reader, cutoff: int, left: set<int>, keys: seq<Key>) {
    && DistinctIds(keys)
    && KeyIds(keys) == OldIds(t, parse, cutoff) - left
    && forall i :: 0 <= i < |keys| ==> Matches(t, keys[i])
  }

  lemma ScanOne(t: Tables, parse: Reader, cutoff: int, left: set<int>, keys: seq<Key>, id: int)
    requires ScannedBut(t, parse, cutoff, left, keys) && id in left && id in t.reports
    ensures var sent := t.reports[id];
      if id != 0 && sent.Some? && Old(parse, sent.value, cutoff)
      then ScannedBut(t, parse, cutoff, left - {id}, keys + [Key(id, sent.value)])
      else ScannedBut(t, parse, cutoff, left - {id}, keys)
  {
    var sent, old_ := t.reports[id], OldIds(t, parse, cutoff);
    if id in old_ {
      OneMoreKey(keys, Key(id, sent.value));
      assert old_ - (left - {id}) == (old_ - left) + {id};
    } else {
      assert old_ - (left - {id}) == old_ - left;
    }
  }

  /** What the scan found, without its own words. */
  lemma ScannedMeans(t: Tables, parse: Reader, cutoff: int, keys: seq<Key>)
    requires Scanned(t, parse, cutoff, keys)
    ensures forall i, j :: 0 <= i < j < |keys| ==> keys[i].id != keys[j].id
    ensures forall i :: 0 <= i < |keys| ==>
      var k := keys[i];
      && k.id != 0 && k.id in t.reports && t.reports[k.id] == Some(k.sent)
      && parse(k.sent).Some? && parse(k.sent).value < cutoff
    ensures forall id :: id in t.reports && id != 0 && t.reports[id].Some? ==>
      var at := parse(t.reports[id].value);
      at.Some? && at.value < cutoff ==> exists i :: 0 <= i < |keys| && keys[i].id == id
  {
    forall i | 0 <= i < |keys| ensures keys[i].id in OldIds(t, parse, cutoff) { assert keys[i].id in KeyIds(keys); }
    forall id | id in t.reports && id != 0 && t.reports[id].Some? && Old(parse, t.reports[id].value, cutoff)
      ensures exists i :: 0 <= i < |keys| && keys[i].id == id
    {
      assert id in OldIds(t, parse, cutoff) && id in KeyIds(keys);
    }
  }

  /** Every stored report whose text is an instant before the cutoff is listed once, with that text, and no
      other is. */
  method IngestedBefore(t: Tables, parse: Reader, cutoff: int) returns (keys: seq<Key>)
    ensures forall i, j :: 0 <= i < j < |keys| ==> keys[i].id != keys[j].id
    ensures forall i :: 0 <= i < |keys| ==>
      var k := keys[i];
      && k.id != 0 && k.id in t.reports && t.reports[k.id] == Some(k.sent)
      && parse(k.sent).Some? && parse(k.sent).value < cutoff
    ensures forall id :: id in t.reports && id != 0 && t.reports[id].Some? ==>
      var at := parse(t.reports[id].value);
      at.Some? && at.value < cutoff ==> exists i :: 0 <= i < |keys| && keys[i].id == id
    ensures Scanned(t, parse, cutoff, keys)
    ensures |keys| == |OldIds(t, parse, cutoff)|
  {
    keys := [];
    var left := t.reports.Keys;
    while left != {}
      invariant left <= t.reports.Keys && ScannedBut(t, parse, cutoff, left, keys)
      decreases |left|
    {
      hide ScannedBut, Old;
      ghost var w := FiniteSets.Member(left);
      var id :| id in left;
      ScanOne(t, parse, cutoff, left, keys, id);
      var sent := t.reports[id];
      if id != 0 && sent.Some? && Old(parse, sent.value, cutoff) {
        keys := keys + [Key(id, sent.value)];
      }
      left := left - {id};
    }
    AsManyKeys(keys);
    ScannedMeans(t, parse, cutoff, keys);
  }

  /** What a chunk leaves, table by table: the reports listed with the text they carry are gone and counted, with
      their dependents, links to them are nulled, and everything else is as it was. */
  lemma ChunkLeaves(was: Tables, keys: seq<Key>)
    ensures
      var gone := set i | 0 <= i < |keys| && keys[i].id in was.reports && was.reports[keys[i].id] == Some(keys[i].sent)
                    :: keys[i].id;
      var now := Cleared(was, Gone(was, keys));
      && now.reports == was.reports - gone && |Gone(was, keys)| == |was.reports| - |now.reports|
      && now.viewers == Filter((d: Dependent) => d.report !in gone, was.viewers)
      && now.tracking == Filter((d: Dependent) => d.report !in gone, was.tracking)
      && now.revisions == Filter((d: Dependent) => d.report !in gone, was.revisions)
      && now.sets == map s | s in was.sets ::
          if was.sets[s].Some? && was.sets[s].value in gone then None else was.sets[s]
  {
    var gone := set i | 0 <= i < |keys| && keys[i].id in was.reports && was.reports[keys[i].id] == Some(keys[i].sent)
                  :: keys[i].id;
    assert gone == Gone(was, keys);
    var outside := (d: Dependent) => d.report !in gone;
    FilterSame(Outside(gone), outside, was.viewers);
    FilterSame(Outside(gone), outside, was.tracking);
    FilterSame(Outside(gone), outside, was.revisions);
    var now := was.reports - gone;
    assert now.Keys == was.reports.Keys - gone && gone <= was.reports.Keys;
    FiniteSets.UnionSize(now.Keys, gone);
    assert now.Keys + gone == was.reports.Keys;
    assert |now| == |now.Keys| && |was.reports| == |was.reports.Keys|;
  }

  class Store {
    var t: Tables

    constructor (t: Tables)
      ensures this.t == t
    {
      this.t := t;
    }

    /** One transaction: DELETE … WHERE id=? AND sent_at=? for every key, and the dependents of those that
        matched. */
    method DeleteChunk(keys: seq<Key>) returns (n: nat)
      requires DistinctIds(keys)
      modifies this
      ensures t == Cleared(old(t), Gone(old(t), keys)) && n == |Gone(old(t), keys)|
    {
      n := 0;
      var i := 0;
      ghost var before := t;
      ClearedNone(t);
      assert Gone(t, keys[..0]) == {};
      while i < |keys|
        invariant 0 <= i <= |keys|
        invariant t == Cleared(before, Gone(before, keys[..i])) && n == |Gone(before, keys[..i])|
      {
        var k := keys[i];
        hide Gone, Cleared, Filter;
        GoneStep(before, keys, i);
        ClearedTwice(before, Gone(before, keys[..i]), k.id);
        if k.id in t.reports && t.reports[k.id] == Some(k.sent) {
          DeleteReport(k.id);
          n := n + 1;
        }
        i := i + 1;
      }
      assert keys[..i] == keys;
    }

    method DeleteReport(id: int)
      modifies this
      ensures t == Cleared(old(t), {id})
    {
      t := Tables(t.reports - {id}, Filter(Outside({id}), t.viewers), Filter(Outside({id}), t.tracking),
                  Filter(Outside({id}), t.revisions),
                  map s | s in t.sets :: if t.sets[s] == Some(id) then None else t.sets[s]);
    }

    /** The pass. arrivals are the tables as each chunk's transaction finds them, after any ingests and
        edits since the chunk before; results are the tables as each chunk leaves them. */
    method DeleteIngestedBefore(parse: Reader, cutoff: int, arrivals: seq<Tables>)
      returns (total: nat, keys: seq<Key>, results: seq<Tables>)
      requires |arrivals| >= Chunks(|OldIds(t, parse, cutoff)|)
      modifies this
      ensures Scanned(old(t), parse, cutoff, keys) && |results| == Chunks(|keys|) <= |arrivals|
      ensures ChunksRun(arrivals, keys, results)
      ensures total == SumGone(arrivals, keys, |results|)
    {
      keys := IngestedBefore(t, parse, cutoff);
      total, results := 0, [];
      var i := 0;
      assert DistinctIds(keys);
      assert ChunksRun(arrivals, keys, []);
      hide *;
      StartChunks(keys);
      while i < |keys|
        invariant 0 <= i && AtChunk(keys, |results|, i) && |results| <= |arrivals|
        invariant ChunksRun(arrivals, keys, results)
        invariant total == SumGone(arrivals, keys, |results|)
        decreases |keys| - i
      {
        var end := if i + CHUNK > |keys| then |keys| else i + CHUNK;
        ChunkNumber(keys, |results|, i);
        t := arrivals[|results|];
        var n := DeleteChunk(keys[i..end]);
        RunsOn(arrivals, keys, results, t);
        total := total + n;
        results := results + [t];
        i := i + CHUNK;
      }
      LastChunk(keys, |results|, i);
    }
  }

  /** The loop stands at the start of a chunk, or past the last one. */
  predicate AtChunk(keys: seq<Key>, c: nat, i: nat) {
    i == c * CHUNK && c <= Chunks(|keys|) && (i >= |keys| ==> c == Chunks(|keys|))
  }

  lemma StartChunks(keys: seq<Key>)
    ensures AtChunk(keys, 0, 0)
  {
  }

  lemma LastChunk(keys: seq<Key>, c: nat, i: nat)
    requires AtChunk(keys, c, i) && i >= |keys|
    ensures c == Chunks(|keys|)
  {
  }

  lemma RunsOn(arrivals: seq<Tables>, keys: seq<Key>, results: seq<Tables>, t: Tables)
    requires ChunksRun(arrivals, keys, results) && |results| < |arrivals|
    requires t == Cleared(arrivals[|results|], Gone(arrivals[|results|], ChunkOf(keys, |results|)))
    ensures ChunksRun(arrivals, keys, results + [t])
    ensures SumGone(arrivals, keys, |results| + 1)
      == SumGone(arrivals, keys, |results|) + |Gone(arrivals[|results|], ChunkOf(keys, |results|))|
  {
    hide Cleared, Gone, ChunkOf;
  }

  /** Each chunk removed from the tables it found the reports of its keys that still matched. */
  predicate ChunksRun(arrivals: seq<Tables>, keys: seq<Key>, results: seq<Tables>) {
    && |results| <= |arrivals|
    && forall c :: 0 <= c < |results| ==> results[c] == Cleared(arrivals[c], Gone(arrivals[c], ChunkOf(keys, c)))
  }

  function Chunks(n: nat): nat { (n + CHUNK - 1) / CHUNK }

  function ChunkOf(keys: seq<Key>, c: nat): seq<Key> {
    if c * CHUNK >= |keys| then []
    else if (c + 1) * CHUNK >= |keys| then keys[c * CHUNK..]
    else keys[c * CHUNK..(c + 1) * CHUNK]
  }

  lemma ChunkNumber(keys: seq<Key>, c: nat, i: nat)
    requires DistinctIds(keys) && AtChunk(keys, c, i) && i < |keys|
    ensures c < Chunks(|keys|) && DistinctIds(ChunkOf(keys, c)) && CHUNK > 0
    ensures ChunkOf(keys, c) == keys[i..if i + CHUNK > |keys| then |keys| else i + CHUNK]
    ensures AtChunk(keys, c + 1, i + CHUNK)
  {
  }

  function SumGone(arrivals: seq<Tables>, keys: seq<Key>, c: nat): nat
    requires c <= |arrivals|
  {
    if c == 0 then 0 else SumGone(arrivals, keys, c - 1) + |Gone(arrivals[c - 1], ChunkOf(keys, c - 1))|
  }

  /** The total is the number of reports that the chunks took away, each from the tables it found. */
  lemma {:induction false} TotalCounts(arrivals: seq<Tables>, keys: seq<Key>, results: seq<Tables>)
    requires ChunksRun(arrivals, keys, results)
    ensures SumGone(arrivals, keys, |results|) == |TakenAway(arrivals, results)|
  {
    if results == [] {
      assert TakenAway(arrivals, []) == {};
    } else {
      var c := |results| - 1;
      TotalCounts(arrivals, keys, results[..c]);
      var gone := Gone(arrivals[c], ChunkOf(keys, c));
      GoneStored(arrivals[c], ChunkOf(keys, c));
      hide Gone, Cleared, ChunkOf, TakenAway;
      TakenMore(arrivals, results, gone);
    }
  }

  lemma GoneStored(t: Tables, keys: seq<Key>)
    ensures Gone(t, keys) <= t.reports.Keys
    ensures forall id :: id in Cleared(t, Gone(t, keys)).reports <==> id in t.reports && id !in Gone(t, keys)
  {
  }

  lemma TakenMore(arrivals: seq<Tables>, results: seq<Tables>, gone: set<int>)
    requires 0 < |results| <= |arrivals|
    requires var c := |results| - 1;
      gone <= arrivals[c].reports.Keys
      && forall id :: id in results[c].reports <==> id in arrivals[c].reports && id !in gone
    ensures |TakenAway(arrivals, results)| == |TakenAway(arrivals, results[..|results| - 1])| + |gone|
  {
    var c := |results| - 1;
    var a, b := TakenAway(arrivals, results[..c]), set id | id in gone :: (c, id);
    PairSize(c, gone);
    FiniteSets.UnionSize(a, b);
    assert TakenAway(arrivals, results) == a + b;
  }

  function TakenAway(arrivals: seq<Tables>, results: seq<Tables>): set<(int, int)>
    requires |results| <= |arrivals|
  {
    set c, id | 0 <= c < |results| && id in arrivals[c].reports && id !in results[c].reports :: (c, id)
  }

  lemma {:induction false} PairSize(c: int, ids: set<int>)
    ensures |set id | id in ids :: (c, id)| == |ids|
  {
    if ids == {} {
      assert (set id | id in ids :: (c, id)) == {};
    } else {
      var x := FiniteSets.Member(ids);
      PairSize(c, ids - {x});
      assert (set id | id in ids :: (c, id)) == (set id | id in ids - {x} :: (c, id)) + {(c, x)};
    }
  }

  /** Every key belongs to exactly one chunk. */
  lemma OneChunk(keys: seq<Key>, i: nat)
    requires i < |keys|
    ensures i / CHUNK < Chunks(|keys|) && |ChunkOf(keys, i / CHUNK)| <= 500
    ensures i - (i / CHUNK) * CHUNK < |ChunkOf(keys, i / CHUNK)|
      && ChunkOf(keys, i / CHUNK)[i - (i / CHUNK) * CHUNK] == keys[i]
    ensures forall c: nat, k: nat ::
      k < |ChunkOf(keys, c)| && DistinctIds(keys) && ChunkOf(keys, c)[k].id == keys[i].id ==> c == i / CHUNK
  {
    forall c: nat, k: nat | k < |ChunkOf(keys, c)| && DistinctIds(keys) && ChunkOf(keys, c)[k].id == keys[i].id
      ensures c == i / CHUNK
    {
      assert ChunkOf(keys, c)[k] == keys[c * CHUNK + k];
      assert c * CHUNK + k == i;
    }
  }

  /** What one chunk does to the tables it finds, whatever happened since the scan: a report goes only if
      the text it carries now is old, its dependents go exactly with it, and prediction sets survive with
      the link to it nulled. */
  lemma ChunkIsSafe(scan: Tables, now: Tables, parse: Reader, cutoff: int, keys: seq<Key>, c: nat)
    requires Scanned(scan, parse, cutoff, keys)
    ensures var ids := Gone(now, ChunkOf(keys, c)); var after := Cleared(now, ids);
      && (forall id :: id in ids ==>
        && id in now.reports && now.reports[id].Some?
        && parse(now.reports[id].value).Some? && parse(now.reports[id].value).value < cutoff)
      && (forall id :: id in now.reports ==> (id in after.reports <==> id !in ids))
      && (forall id :: id in after.reports ==> id in now.reports && after.reports[id] == now.reports[id])
      && (forall d :: d in after.viewers <==> d in now.viewers && d.report !in ids)
      && (forall d :: d in after.tracking <==> d in now.tracking && d.report !in ids)
      && (forall d :: d in after.revisions <==> d in now.revisions && d.report !in ids)
      && after.sets.Keys == now.sets.Keys
      && (forall s :: s in now.sets ==>
          after.sets[s] == if now.sets[s].Some? && now.sets[s].value in ids then None else now.sets[s])
  {
    var ids := Gone(now, ChunkOf(keys, c));
    FilterIn(Outside(ids), now.viewers);
    FilterIn(Outside(ids), now.tracking);
    FilterIn(Outside(ids), now.revisions);
    forall id | id in ids
      ensures id in now.reports && now.reports[id].Some? && Old(parse, now.reports[id].value, cutoff)
    {
      var part := ChunkOf(keys, c);
      var k :| 0 <= k < |part| && Matches(now, part[k]) && part[k].id == id;
      assert part[k] == keys[c * CHUNK + k];
      assert keys[c * CHUNK + k].id in KeyIds(keys);
      assert Matches(scan, keys[c * CHUNK + k]);
    }
  }

  /** A report ingested again before its chunk runs is kept. */
  lemma FreshIsKept(now: Tables, keys: seq<Key>, c: nat, i: nat)
    requires DistinctIds(keys) && i < |keys| && !Matches(now, keys[i])
    ensures keys[i].id !in Gone(now, ChunkOf(keys, c))
  {
    var part := ChunkOf(keys, c);
    forall k | 0 <= k < |part| && part[k].id == keys[i].id ensures !Matches(now, part[k]) {
      assert part[k] == keys[c * CHUNK + k];
    }
  }
}
