/** App access by organisational unit: the chain of units a user inherits along, the nearest override on
    it, and the two ways the portal answers whether an app is open. */
module AppAccess {
  import FiniteSets
  import opened Options
  import opened Seqs

  datatype Node = Node(parent: int, isDefault: bool)

  /** deflt is the one default unit, when there is exactly one and nothing lies above it. */
  datatype Graph = Graph(nodes: map<int, Node>, deflt: Option<int>)

  datatype ChainError = NoDefault | Dangling | Cyclic

  datatype Chain = Chain(ids: seq<int>) | Bad(error: ChainError)

  const MAX_CHAIN := 64

  function Defaults(nodes: map<int, Node>): set<int> { set id | id in nodes && nodes[id].isDefault }

  predicate GraphOk(g: Graph) {
    && (g.deflt.Some? ==> Defaults(g.nodes) == {g.deflt.value} && g.nodes[g.deflt.value].parent == 0)
    && (g.deflt.None? ==> forall d :: d in g.nodes && Defaults(g.nodes) == {d} ==> g.nodes[d].parent != 0)
  }

  lemma FoundNext(nodes: map<int, Node>, found: set<int>, left: set<int>, id: int)
    requires left <= nodes.Keys && id in left && found == Defaults(nodes) - left
    ensures (if nodes[id].isDefault then found + {id} else found) == Defaults(nodes) - (left - {id})
  {
  }

  lemma GraphMade(nodes: map<int, Node>, found: set<int>, last: int)
    requires found == Defaults(nodes) && (found != {} ==> last in found)
    ensures |found| == 1 ==> last in nodes
    ensures GraphOk(Graph(nodes, if |found| == 1 && nodes[last].parent == 0 then Some(last) else None))
  {
    if |found| == 1 { FiniteSets.OnlyMember(found, last); }
  }

  /** d is a default unit with nothing above it, and there is no other default unit. */
  predicate OnlyDefault(nodes: map<int, Node>, d: int) {
    d in nodes && nodes[d] == Node(0, true) && forall id :: id in nodes && nodes[id].isDefault ==> id == d
  }

  lemma DefaultsAre(nodes: map<int, Node>, d: int)
    requires OnlyDefault(nodes, d)
    ensures Defaults(nodes) == {d}
  {
    assert forall id :: id in Defaults(nodes) <==> id == d;
  }

  lemma DefaultKnown(g: Graph)
    requires GraphOk(g)
    ensures g.deflt.Some? ==> OnlyDefault(g.nodes, g.deflt.value)
    ensures g.deflt.None? ==> forall d :: !OnlyDefault(g.nodes, d)
  {
    if g.deflt.Some? {
      var d := g.deflt.value;
      assert d in Defaults(g.nodes);
      forall id | id in g.nodes && g.nodes[id].isDefault ensures id == d { assert id in Defaults(g.nodes); }
    } else {
      forall d ensures !OnlyDefault(g.nodes, d) {
        if OnlyDefault(g.nodes, d) { DefaultsAre(g.nodes, d); }
      }
    }
  }

  method NewGraph(nodes: map<int, Node>) returns (g: Graph)
    ensures g.nodes == nodes && GraphOk(g)
    ensures g.deflt.Some? ==> OnlyDefault(nodes, g.deflt.value)
    ensures g.deflt.None? ==> forall d :: !OnlyDefault(nodes, d)
  {
    var found: set<int> := {};
    var last := 0;
    var left := nodes.Keys;
    while left != {}
      invariant left <= nodes.Keys && found == Defaults(nodes) - left
      invariant found != {} ==> last in found
      decreases |left|
    {
      ghost var w := FiniteSets.Member(left);
      var id :| id in left;
      FoundNext(nodes, found, left, id);
      hide Defaults;
      if nodes[id].isDefault {
        found := found + {id};
        last := id;
      }
      left := left - {id};
    }
    GraphMade(nodes, found, last);
    hide GraphOk, Defaults, OnlyDefault;
    g := Graph(nodes, if |found| == 1 && nodes[last].parent == 0 then Some(last) else None);
    DefaultKnown(g);
  }

  // ---------- the chain ----------

  /** From a unit up to one without a parent, every link in the graph, within the depth limit. */
  predicate IsChain(nodes: map<int, Node>, leaf: int, c: seq<int>) {
    && 0 < |c| <= MAX_CHAIN && c[0] == leaf
    && (forall i :: 0 <= i < |c| ==> c[i] > 0 && c[i] in nodes)
    && (forall i :: 0 <= i < |c| - 1 ==> nodes[c[i]].parent == c[i + 1])
    && nodes[c[|c| - 1]].parent == 0
  }

  lemma {:induction false} SameTail(nodes: map<int, Node>, leaf: int, c: seq<int>, i: nat, j: nat, d: nat)
    requires IsChain(nodes, leaf, c) && i < j && j + d < |c| && c[i] == c[j]
    ensures c[i + d] == c[j + d]
  {
    if d > 0 {
      SameTail(nodes, leaf, c, i, j, d - 1);
      assert nodes[c[i + d - 1]].parent == c[i + d] && nodes[c[j + d - 1]].parent == c[j + d];
    }
  }

  lemma InnerParent(nodes: map<int, Node>, leaf: int, c: seq<int>, i: nat)
    requires IsChain(nodes, leaf, c) && i < |c|
    ensures nodes[c[i]].parent == 0 <==> i == |c| - 1
    ensures i < |c| - 1 ==> nodes[c[i]].parent == c[i + 1]
  {
  }

  /** A chain that ends never meets a unit twice. */
  lemma NoRepeat(nodes: map<int, Node>, leaf: int, c: seq<int>, i: nat, j: nat)
    requires IsChain(nodes, leaf, c) && i < j < |c|
    ensures c[i] != c[j]
  {
    if c[i] == c[j] {
      var d := |c| - 1 - j;
      InnerParent(nodes, leaf, c, i + d);
      SameTail(nodes, leaf, c, i, j, d);
    }
  }

  lemma {:induction false} ChainsAgree(nodes: map<int, Node>, leaf: int, a: seq<int>, b: seq<int>, n: nat)
    requires IsChain(nodes, leaf, a) && IsChain(nodes, leaf, b) && n <= |a| && n <= |b|
    ensures a[..n] == b[..n]
  {
    if n > 0 {
      ChainsAgree(nodes, leaf, a, b, n - 1);
      if n > 1 {
        assert a[..n - 1][n - 2] == b[..n - 1][n - 2];
        assert nodes[a[n - 2]].parent == a[n - 1] && nodes[b[n - 2]].parent == b[n - 1];
      }
      assert a[..n] == a[..n - 1] + [a[n - 1]] && b[..n] == b[..n - 1] + [b[n - 1]];
    }
  }

  lemma ChainUnique(nodes: map<int, Node>, leaf: int, a: seq<int>, b: seq<int>)
    requires IsChain(nodes, leaf, a) && IsChain(nodes, leaf, b)
    ensures a == b
  {
    var n := if |a| <= |b| then |a| else |b|;
    InnerParent(nodes, leaf, a, n - 1);
    InnerParent(nodes, leaf, b, n - 1);
    ChainsAgree(nodes, leaf, a, b, n);
    assert a[..n][n - 1] == b[..n][n - 1];
    Whole(a, n);
    Whole(b, n);
  }

  lemma Whole<T>(a: seq<T>, n: nat)
    ensures n == |a| ==> a[..n] == a
  {
  }

  /** The unit after the first n of a chain, 0 past its end. */
  ghost predicate Follows(nodes: map<int, Node>, leaf: int, seen: seq<int>, next: int) {
    forall c :: IsChain(nodes, leaf, c) ==>
      && |seen| <= |c| && c[..|seen|] == seen
      && (if next == 0 then |seen| == |c| else |seen| < |c| && c[|seen|] == next)
  }

  /** Climbs from id, out being the units climbed so far. */
  function Climb(nodes: map<int, Node>, id: int, out: seq<int>): Chain
    requires |out| <= MAX_CHAIN
    decreases MAX_CHAIN - |out|
  {
    if id == 0 then Chain(out)
    else if |out| >= MAX_CHAIN || id in out then Bad(Cyclic)
    else if id !in nodes || id < 0 then Bad(Dangling)
    else Climb(nodes, nodes[id].parent, out + [id])
  }

  function ActualChain(g: Graph, leaf: int): Chain {
    if g.deflt.None? then Bad(NoDefault)
    else if leaf == 0 then Chain([])
    else Climb(g.nodes, leaf, [])
  }

  method FindChain(g: Graph, leaf: int) returns (r: Chain)
    ensures r == ActualChain(g, leaf)
  {
    if g.deflt.None? { return Bad(NoDefault); }
    if leaf == 0 { return Chain([]); }
    var out: seq<int> := [];
    var seen: set<int> := {};
    var id := leaf;
    while id != 0
      invariant |out| <= MAX_CHAIN && (forall x :: x in seen <==> x in out)
      invariant Climb(g.nodes, id, out) == Climb(g.nodes, leaf, [])
      decreases MAX_CHAIN - |out|
    {
      if |out| >= MAX_CHAIN || id in seen { return Bad(Cyclic); }
      if id !in g.nodes || id < 0 { return Bad(Dangling); }
      seen := seen + {id};
      out := out + [id];
      id := g.nodes[id].parent;
    }
    r := Chain(out);
  }

  /** The units climbed so far link up, and id is what comes next. */
  predicate Climbed(nodes: map<int, Node>, leaf: int, out: seq<int>, id: int) {
    && (forall i :: 0 <= i < |out| ==> out[i] > 0 && out[i] in nodes)
    && (forall i :: 0 <= i < |out| - 1 ==> nodes[out[i]].parent == out[i + 1])
    && (if out == [] then id == leaf else out[0] == leaf && nodes[out[|out| - 1]].parent == id)
  }

  lemma FollowsOn(nodes: map<int, Node>, leaf: int, out: seq<int>, id: int)
    requires Follows(nodes, leaf, out, id) && id != 0 && id in nodes
    ensures Follows(nodes, leaf, out + [id], nodes[id].parent)
  {
    forall c | IsChain(nodes, leaf, c)
      ensures |out| + 1 <= |c| && c[..|out| + 1] == out + [id]
      ensures if nodes[id].parent == 0 then |out| + 1 == |c| else |out| + 1 < |c| && c[|out| + 1] == nodes[id].parent
    {
      assert c[..|out| + 1] == c[..|out|] + [c[|out|]];
      InnerParent(nodes, leaf, c, |out|);
    }
  }

  lemma {:induction false} ClimbExactly(nodes: map<int, Node>, leaf: int, id: int, out: seq<int>)
    requires |out| <= MAX_CHAIN && leaf != 0 && Climbed(nodes, leaf, out, id) && Follows(nodes, leaf, out, id)
    ensures var r := Climb(nodes, id, out);
      if r.Chain? then IsChain(nodes, leaf, r.ids) else forall c :: !IsChain(nodes, leaf, c)
    decreases MAX_CHAIN - |out|
  {
    if id == 0 {
    } else if |out| >= MAX_CHAIN {
    } else if id in out {
      forall c ensures !IsChain(nodes, leaf, c) {
        if IsChain(nodes, leaf, c) {
          var k :| 0 <= k < |out| && out[k] == id;
          assert c[..|out|][k] == id;
          NoRepeat(nodes, leaf, c, k, |out|);
        }
      }
    } else if id !in nodes || id < 0 {
    } else {
      FollowsOn(nodes, leaf, out, id);
      var more := out + [id];
      assert forall i :: 0 <= i < |out| ==> more[i] == out[i];
      ClimbExactly(nodes, leaf, nodes[id].parent, more);
    }
  }

  /** The climb finds the chain of a unit exactly when there is one, and there is at most one. */
  lemma ChainExactly(g: Graph, leaf: int)
    requires g.deflt.Some? && leaf != 0
    ensures ActualChain(g, leaf).Chain? <==> exists c :: IsChain(g.nodes, leaf, c)
    ensures forall c :: IsChain(g.nodes, leaf, c) ==> ActualChain(g, leaf) == Chain(c)
  {
    forall c | IsChain(g.nodes, leaf, c) ensures c[..0] == [] {}
    ClimbExactly(g.nodes, leaf, leaf, []);
    var r := ActualChain(g, leaf);
    forall c | IsChain(g.nodes, leaf, c) ensures r == Chain(c) { ChainUnique(g.nodes, leaf, c, r.ids); }
  }

  /** Policy falls back to the default unit when the chain does not end there. */
  function PolicyChain(g: Graph, leaf: int): Chain {
    match ActualChain(g, leaf)
    case Bad(e) => Bad(e)
    case Chain(ids) =>
      if ids == [] || ids[|ids| - 1] == g.deflt.value then Chain(ids) else Chain(ids + [g.deflt.value])
  }

  // ---------- resolution ----------

  type Overrides = map<int, bool>

  /** The first override along the chain, open when there is none. */
  function Resolve(ids: seq<int>, rows: Overrides): bool {
    if ids == [] then true
    else if ids[0] in rows then rows[ids[0]]
    else Resolve(ids[1..], rows)
  }

  method ResolveAccess(ids: seq<int>, rows: Overrides) returns (open: bool)
    ensures open == Resolve(ids, rows)
  {
    var i := 0;
    while i < |ids|
      invariant 0 <= i <= |ids| && Resolve(ids[i..], rows) == Resolve(ids, rows)
    {
      if ids[i] in rows { return rows[ids[i]]; }
      assert ids[i..][1..] == ids[i + 1..];
      i := i + 1;
    }
    open := true;
  }

  /** An app is closed along a chain exactly when its nearest override says so. */
  lemma {:induction false} NearestDecides(ids: seq<int>, rows: Overrides)
    ensures !Resolve(ids, rows) <==>
      exists i :: 0 <= i < |ids| && ids[i] in rows && !rows[ids[i]] && forall k :: 0 <= k < i ==> ids[k] !in rows
  {
    if ids != [] && ids[0] !in rows {
      var rest := ids[1..];
      NearestDecides(rest, rows);
      if !Resolve(rest, rows) {
        var i :| 0 <= i < |rest| && rest[i] in rows && !rows[rest[i]] && forall k :: 0 <= k < i ==> rest[k] !in rows;
        assert ids[i + 1] == rest[i];
        assert forall k :: 0 < k < i + 1 ==> ids[k] == rest[k - 1];
      }
      forall i | 0 <= i < |ids| && ids[i] in rows && !rows[ids[i]] && forall k :: 0 <= k < i ==> ids[k] !in rows
        ensures !Resolve(rest, rows)
      {
        assert rest[i - 1] == ids[i];
        assert forall k :: 0 <= k < i - 1 ==> rest[k] == ids[k + 1];
      }
    }
  }

  // ---------- may this user open this app ----------

  /** ou is the assigned unit, 0 when there is none. */
  datatype User = User(active: bool, manager: bool, ou: int)

  type Users = map<string, User>
  type Rows = map<string, Overrides>

  function RowsOf(rows: Rows, key: string): Overrides { if key in rows then rows[key] else map[] }

  function EffectiveOU(g: Graph, u: User): int {
    if u.ou == 0 then (if g.deflt.Some? then g.deflt.value else 0) else u.ou
  }

  datatype View = Denied | Admin | Along(ids: seq<int>)

  /** The full resolver, built once per user; an unreadable policy denies. */
  function ViewOf(g: Graph, users: Users, user: string): View {
    if user !in users || !users[user].active then Denied
    else if users[user].manager then Admin
    else match PolicyChain(g, EffectiveOU(g, users[user]))
      case Bad(_) => Denied
      case Chain(ids) => Along(ids)
  }

  function Open(v: View, rows: Rows, key: string): bool {
    match v
    case Denied => false
    case Admin => true
    case Along(ids) => Resolve(ids, RowsOf(rows, key))
  }

  /** The check for one app, as cheap as the answer allows: None is an unreadable policy. */
  function OpenForKey(g: Graph, users: Users, rows: Rows, user: string, key: string): Option<bool> {
    if user !in users || !users[user].active then Some(false)
    else if users[user].manager then Some(true)
    else if RowsOf(rows, key) == map[] then Some(true)
    else match PolicyChain(g, EffectiveOU(g, users[user]))
      case Bad(_) => None
      case Chain(ids) => Some(Resolve(ids, RowsOf(rows, key)))
  }

  /** For a caller that cannot answer an error: closed. */
  function OpenQuiet(g: Graph, users: Users, rows: Rows, user: string, key: string): bool {
    OpenForKey(g, users, rows, user, key) == Some(true)
  }

  lemma {:induction false} NoRowsOpen(ids: seq<int>)
    ensures Resolve(ids, map[])
  {
    if ids != [] { NoRowsOpen(ids[1..]); }
  }

  /** The fast check and the full resolver agree except on one kind of user: active, no manager, with a
      broken chain, asking for an app without overrides. There the fast check says open. */
  lemma FastAgrees(g: Graph, users: Users, rows: Rows, user: string, key: string)
    ensures OpenQuiet(g, users, rows, user, key) == Open(ViewOf(g, users, user), rows, key) <==>
      !(user in users && users[user].active && !users[user].manager
        && PolicyChain(g, EffectiveOU(g, users[user])).Bad? && RowsOf(rows, key) == map[])
  {
    if user in users {
      match PolicyChain(g, EffectiveOU(g, users[user]))
      case Chain(ids) => NoRowsOpen(ids);
      case Bad(_) =>
    }
  }

  /** A default unit 1, and a unit 2 whose parent 9 is gone; the user sits in unit 2. */
  const TORN := Graph(map[1 := Node(0, true), 2 := Node(9, false)], Some(1))
  const ADRIFT: Users := map["mei" := User(true, false, 2)]

  /** For that user the fast check opens an app without overrides that the full resolver denies. */
  lemma TornChainDisagrees(key: string)
    ensures GraphOk(TORN) && ActualChain(TORN, 2) == Bad(Dangling)
    ensures OpenQuiet(TORN, ADRIFT, map[], "mei", key) && !Open(ViewOf(TORN, ADRIFT, "mei"), map[], key)
  {
    assert Defaults(TORN.nodes) == {1};
    assert Climb(TORN.nodes, 9, [2]) == Bad(Dangling);
    assert ActualChain(TORN, 2) == Climb(TORN.nodes, TORN.nodes[2].parent, [] + [2]);
  }

  /** Ids are positive, and every unit has a chain. */
  predicate Sound(g: Graph) {
    GraphOk(g) && g.deflt.Some? && 0 !in g.nodes && forall id :: id in g.nodes ==> ActualChain(g, id).Chain?
  }

  predicate Placed(g: Graph, users: Users) {
    forall u :: u in users ==> users[u].ou == 0 || users[u].ou in g.nodes
  }

  lemma SoundAgrees(g: Graph, users: Users, rows: Rows, user: string, key: string)
    requires Sound(g) && Placed(g, users)
    ensures OpenQuiet(g, users, rows, user, key) == Open(ViewOf(g, users, user), rows, key)
  {
    FastAgrees(g, users, rows, user, key);
    if user in users { assert g.deflt.value in Defaults(g.nodes); }
  }

  // ---------- what decides, in terms of the units alone ----------

  /** The nearest override along the path closes. */
  predicate ClosedAlong(path: seq<int>, rows: Overrides) {
    exists i :: 0 <= i < |path| && path[i] in rows && !rows[path[i]] && forall k :: 0 <= k < i ==> path[k] !in rows
  }

  /** The units that decide for a user: without a unit the default one alone, otherwise the chain of the unit, with
      the default unit after it where the chain ends elsewhere. */
  ghost predicate PathOf(g: Graph, ou: int, path: seq<int>) {
    && g.deflt.Some?
    && if ou == 0 then path == [g.deflt.value]
       else exists c ::
         IsChain(g.nodes, ou, c) && path == if c[|c| - 1] == g.deflt.value then c else c + [g.deflt.value]
  }

  /** Managers may open every app; any other active user one that the nearest override on the path leaves open. */
  ghost predicate MayOpen(g: Graph, users: Users, rows: Rows, user: string, key: string) {
    && user in users && users[user].active
    && (|| users[user].manager
        || exists path :: PathOf(g, users[user].ou, path) && (key in rows ==> !ClosedAlong(path, rows[key])))
  }

  /** The chain a policy is read along is the path of the unit, and there is no other. */
  lemma PathExactly(g: Graph, leaf: int)
    requires GraphOk(g) && g.deflt.Some? && leaf != 0
    ensures PolicyChain(g, leaf).Chain? <==> exists path :: PathOf(g, leaf, path)
    ensures forall path :: PathOf(g, leaf, path) ==> PolicyChain(g, leaf) == Chain(path)
  {
    ChainExactly(g, leaf);
    var d := g.deflt.value;
    if PolicyChain(g, leaf).Chain? {
      var c :| IsChain(g.nodes, leaf, c);
      assert PathOf(g, leaf, if c[|c| - 1] == d then c else c + [d]);
    }
    hide IsChain, ActualChain, GraphOk;
  }

  lemma DefaultPath(g: Graph)
    requires GraphOk(g) && g.deflt.Some? && g.deflt.value > 0
    ensures PolicyChain(g, g.deflt.value) == Chain([g.deflt.value])
  {
    var d := g.deflt.value;
    assert d in Defaults(g.nodes);
    assert IsChain(g.nodes, d, [d]);
    ChainExactly(g, d);
  }

  lemma HomePath(g: Graph, u: User)
    requires Sound(g) && (u.ou == 0 || u.ou in g.nodes)
    ensures exists path :: PathOf(g, u.ou, path)
    ensures forall path :: PathOf(g, u.ou, path) ==> PolicyChain(g, EffectiveOU(g, u)) == Chain(path)
  {
    var d := g.deflt.value;
    assert d in Defaults(g.nodes) && ActualChain(g, d).Chain?;
    if u.ou == 0 {
      assert Climb(g.nodes, d, []).Chain? && d > 0;
      DefaultPath(g);
      assert PathOf(g, u.ou, [d]);
    } else {
      PathExactly(g, u.ou);
    }
  }

  /** The full resolver and the fast check answer by the units alone: whether the user may open the app. */
  lemma OpenExactly(g: Graph, users: Users, rows: Rows, user: string, key: string)
    requires Sound(g) && Placed(g, users)
    ensures Open(ViewOf(g, users, user), rows, key) <==> MayOpen(g, users, rows, user, key)
    ensures OpenQuiet(g, users, rows, user, key) <==> MayOpen(g, users, rows, user, key)
  {
    SoundAgrees(g, users, rows, user, key);
    if user in users && users[user].active && !users[user].manager {
      HomePath(g, users[user]);
      var path :| PathOf(g, users[user].ou, path);
      NearestDecides(path, RowsOf(rows, key));
      hide Sound, GraphOk, PathOf, PolicyChain, EffectiveOU, OpenQuiet, Resolve;
    }
  }

  /** The same for a user without a unit and for one in a unit, spelled out. */
  lemma UnitsDecide(g: Graph, users: Users, rows: Rows, user: string, key: string, c: seq<int>)
    requires Sound(g) && Placed(g, users) && user in users && users[user].active && !users[user].manager
    ensures var d := g.deflt.value; var ou := users[user].ou; var open := Open(ViewOf(g, users, user), rows, key);
      && (ou == 0 ==> (open <==> !(key in rows && d in rows[key] && !rows[key][d])))
      && (ou != 0 && IsChain(g.nodes, ou, c) ==>
          (open <==> key in rows ==> !ClosedAlong(if c[|c| - 1] == d then c else c + [d], rows[key])))
  {
    OpenExactly(g, users, rows, user, key);
    HomePath(g, users[user]);
    var d, ou := g.deflt.value, users[user].ou;
    if ou == 0 {
      assert PathOf(g, ou, [d]);
      if key in rows && d in rows[key] && !rows[key][d] { assert [d][0] == d; }
    } else if IsChain(g.nodes, ou, c) {
      assert PathOf(g, ou, if c[|c| - 1] == d then c else c + [d]);
    }
    hide Sound, Placed, Open, ViewOf, PolicyChain, IsChain;
  }

  // ---------- changing overrides ----------

  predicate ClosesAt(g: Graph, id: int, before: Overrides, after: Overrides) {
    match PolicyChain(g, id)
    case Bad(_) => false
    case Chain(ids) => Resolve(ids, before) && !Resolve(ids, after)
  }

  /** A unit that goes from open to closed, in terms of its path. */
  lemma ClosesAtExactly(g: Graph, id: int, before: Overrides, after: Overrides)
    requires GraphOk(g) && id != 0
    ensures ClosesAt(g, id, before, after) <==>
      exists path :: PathOf(g, id, path) && !ClosedAlong(path, before) && ClosedAlong(path, after)
  {
    if g.deflt.Some? {
      PathExactly(g, id);
      if PolicyChain(g, id).Chain? {
        var path :| PathOf(g, id, path);
        NearestDecides(path, before);
        NearestDecides(path, after);
      }
    }
    hide PathOf, ClosedAlong, Resolve;
  }

  /** True exactly when some unit goes from open to closed. */
  method ClosesSomewhere(g: Graph, before: Overrides, after: Overrides) returns (closes: bool)
    ensures closes <==> exists id :: id in g.nodes && ClosesAt(g, id, before, after)
  {
    var left := g.nodes.Keys;
    while left != {}
      invariant left <= g.nodes.Keys
      invariant forall id :: id in g.nodes && id !in left ==> !ClosesAt(g, id, before, after)
      decreases |left|
    {
      ghost var w := FiniteSets.Member(left);
      var id :| id in left;
      var c := PolicyChain(g, id);
      if c.Chain? {
        var wasOpen := ResolveAccess(c.ids, before);
        var isOpen := ResolveAccess(c.ids, after);
        if wasOpen && !isOpen { return true; }
      }
      left := left - {id};
    }
    closes := false;
  }

  // ---------- the order of apps ----------

  function Ranked(order: map<string, int>): string -> bool { (k: string) => k in order }
  function Unranked(order: map<string, int>): string -> bool { (k: string) => k !in order }

  function InsertByPosition(k: string, s: seq<string>, order: map<string, int>): seq<string>
    requires k in order && forall x :: x in s ==> x in order
  {
    if s == [] || order[k] <= order[s[0]] then [k] + s else [s[0]] + InsertByPosition(k, s[1..], order)
  }

  lemma {:induction false} InsertKeeps(k: string, s: seq<string>, order: map<string, int>)
    requires k in order && forall x :: x in s ==> x in order
    ensures var r := InsertByPosition(k, s, order);
      multiset(r) == multiset(s) + multiset{k} && (forall x :: x in r <==> x == k || x in s)
  {
    if s != [] && order[k] > order[s[0]] {
      InsertKeeps(k, s[1..], order);
      assert s == [s[0]] + s[1..];
    }
  }

  function SortByPosition(s: seq<string>, order: map<string, int>): (r: seq<string>)
    requires forall x :: x in s ==> x in order
    ensures forall x :: x in r ==> x in order
  {
    if s == [] then []
    else
      var rest := SortByPosition(s[1..], order);
      InsertKeeps(s[0], rest, order);
      InsertByPosition(s[0], rest, order)
  }

  /** Stored positions first, ascending; the others after them in the order they were given. */
  method OrderAppKeys(keys: seq<string>, order: map<string, int>) returns (r: seq<string>)
    ensures r == Ordered(keys, order)
  {
    var ranked: seq<string>, rest: seq<string> := [], [];
    var i := 0;
    while i < |keys|
      invariant 0 <= i <= |keys|
      invariant ranked == Filter(Ranked(order), keys[..i]) && rest == Filter(Unranked(order), keys[..i])
    {
      SplitNext(Ranked(order), keys, i);
      SplitNext(Unranked(order), keys, i);
      if keys[i] in order { ranked := ranked + [keys[i]]; } else { rest := rest + [keys[i]]; }
      i := i + 1;
    }
    assert keys[..i] == keys;
    FilterIn(Ranked(order), keys);
    r := SortByPosition(ranked, order) + rest;
  }

  lemma SplitNext(p: string -> bool, keys: seq<string>, i: nat)
    requires i < |keys|
    ensures Filter(p, keys[..i + 1]) == Filter(p, keys[..i]) + if p(keys[i]) then [keys[i]] else []
  {
    hide Filter;
    assert keys[..i + 1] == keys[..i] + [keys[i]];
    FilterSnoc(p, keys[..i], keys[i]);
  }

  function Ordered(keys: seq<string>, order: map<string, int>): seq<string> {
    FilterIn(Ranked(order), keys);
    SortByPosition(Filter(Ranked(order), keys), order) + Filter(Unranked(order), keys)
  }

  function At(order: map<string, int>, p: int): string -> bool { (k: string) => k in order && order[k] == p }

  lemma {:induction false} InsertStable(k: string, s: seq<string>, order: map<string, int>, p: int)
    requires k in order && forall x :: x in s ==> x in order
    ensures Filter(At(order, p), InsertByPosition(k, s, order))
      == (if order[k] == p then [k] else []) + Filter(At(order, p), s)
  {
    var r := InsertByPosition(k, s, order);
    if s == [] || order[k] <= order[s[0]] {
      assert r[1..] == s;
    } else {
      InsertStable(k, s[1..], order, p);
      assert r[1..] == InsertByPosition(k, s[1..], order);
    }
  }

  predicate ByPosition(s: seq<string>, order: map<string, int>) {
    (forall x :: x in s ==> x in order) && forall i, j :: 0 <= i < j < |s| ==> order[s[i]] <= order[s[j]]
  }

  lemma HeadIsLeast(s: seq<string>, order: map<string, int>, x: string)
    requires ByPosition(s, order) && x in s
    ensures order[s[0]] <= order[x]
  {
    var i :| 0 <= i < |s| && s[i] == x;
  }

  lemma ConsSorted(h: string, s: seq<string>, order: map<string, int>)
    requires h in order && ByPosition(s, order) && forall x :: x in s ==> order[h] <= order[x]
    ensures ByPosition([h] + s, order)
  {
    var r := [h] + s;
    forall i, j | 0 <= i < j < |r| ensures order[r[i]] <= order[r[j]] {
      assert r[j] == s[j - 1] && s[j - 1] in s;
      if i > 0 { assert r[i] == s[i - 1]; }
    }
  }

  lemma TailSorted(s: seq<string>, order: map<string, int>)
    requires s != [] && ByPosition(s, order)
    ensures ByPosition(s[1..], order)
  {
  }

  lemma {:induction false} InsertSorted(k: string, s: seq<string>, order: map<string, int>)
    requires k in order && ByPosition(s, order)
    ensures ByPosition(InsertByPosition(k, s, order), order)
  {
    if s == [] || order[k] <= order[s[0]] {
      forall x | x in s ensures order[k] <= order[x] { HeadIsLeast(s, order, x); }
      ConsSorted(k, s, order);
    } else {
      TailSorted(s, order);
      InsertSorted(k, s[1..], order);
      InsertKeeps(k, s[1..], order);
      var rest := InsertByPosition(k, s[1..], order);
      forall x | x in rest ensures order[s[0]] <= order[x] {
        if x in s[1..] { HeadIsLeast(s, order, x); }
      }
      hide ByPosition;
      ConsSorted(s[0], rest, order);
    }
  }

  lemma {:induction false} SortSorts(s: seq<string>, order: map<string, int>)
    requires forall x :: x in s ==> x in order
    ensures ByPosition(SortByPosition(s, order), order)
  {
    if s != [] {
      SortSorts(s[1..], order);
      InsertSorted(s[0], SortByPosition(s[1..], order), order);
    }
  }

  lemma {:induction false} SortPermutes(s: seq<string>, order: map<string, int>)
    requires forall x :: x in s ==> x in order
    ensures multiset(SortByPosition(s, order)) == multiset(s)
  {
    if s != [] {
      SortPermutes(s[1..], order);
      InsertKeeps(s[0], SortByPosition(s[1..], order), order);
      assert s == [s[0]] + s[1..];
    }
  }

  lemma {:induction false} SortIsStable(s: seq<string>, order: map<string, int>, p: int)
    requires forall x :: x in s ==> x in order
    ensures Filter(At(order, p), SortByPosition(s, order)) == Filter(At(order, p), s)
  {
    if s != [] {
      SortIsStable(s[1..], order, p);
      InsertStable(s[0], SortByPosition(s[1..], order), order, p);
    }
  }

  lemma {:induction false} SplitKeeps(keys: seq<string>, order: map<string, int>)
    ensures multiset(Filter(Ranked(order), keys)) + multiset(Filter(Unranked(order), keys)) == multiset(keys)
  {
    if keys != [] {
      SplitKeeps(keys[1..], order);
      assert keys == [keys[0]] + keys[1..];
    }
  }

  lemma RankedFirst(s: seq<string>, rest: seq<string>, order: map<string, int>)
    requires ByPosition(s, order) && forall x :: x in rest ==> x !in order
    ensures var r := s + rest;
      && (forall i :: 0 <= i < |r| ==> (r[i] in order <==> i < |s|))
      && (forall i, j :: 0 <= i < j < |s| ==> order[r[i]] <= order[r[j]])
  {
    var r := s + rest;
    forall i | 0 <= i < |r| ensures r[i] in order <==> i < |s| {
      assert if i < |s| then r[i] in s else r[i] in rest;
    }
  }

  /** The layout shows every app once more: a permutation of the given keys, the ranked ones first and by
      position, equal positions and unranked keys in the order given. */
  lemma OrderIsStable(keys: seq<string>, order: map<string, int>, p: int)
    ensures multiset(Ordered(keys, order)) == multiset(keys)
    ensures var n := |Filter(Ranked(order), keys)|; var r := Ordered(keys, order);
      && n <= |r| && (forall i :: 0 <= i < |r| ==> (r[i] in order <==> i < n))
      && (forall i, j :: 0 <= i < j < n ==> order[r[i]] <= order[r[j]])
      && r[n..] == Filter(Unranked(order), keys)
      && Filter(At(order, p), r[..n]) == Filter(At(order, p), keys)
  {
    var ranked, rest := Filter(Ranked(order), keys), Filter(Unranked(order), keys);
    FilterIn(Ranked(order), keys);
    SortSorts(ranked, order);
    SortPermutes(ranked, order);
    SortIsStable(ranked, order, p);
    SplitKeeps(keys, order);
    var s := SortByPosition(ranked, order);
    assert |s| == |ranked| by { assert |multiset(s)| == |multiset(ranked)|; }
    assert (s + rest)[..|ranked|] == s && (s + rest)[|ranked|..] == rest;
    FilterIn(Unranked(order), keys);
    hide Filter, SortByPosition;
    RankedFirst(s, rest, order);
    FilterTwice(At(order, p), Ranked(order), keys);
    FilterSame(Both(At(order, p), Ranked(order)), At(order, p), keys);
  }
}
