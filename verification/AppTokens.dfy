/** App tokens in memory, together with the access overrides they were minted under. */
module AppTokens {
  import FiniteSets
  import opened Options
  import opened AppAccess

  datatype Entry = Entry(scopes: set<string>, expires: int, app: string, user: string)

  type Tokens = map<string, Entry>

  /** The holder of every token resolves to open for the token's app. */
  predicate HoldersOpen(g: Graph, users: Users, rows: Rows, tokens: Tokens) {
    forall t :: t in tokens ==> Open(ViewOf(g, users, tokens[t].user), rows, tokens[t].app)
  }

  /** The tokens not past their expiry. */
  function Live(tokens: Tokens, now: int): (r: Tokens)
    ensures forall t :: t in r <==> t in tokens && tokens[t].expires >= now
    ensures forall t :: t in r ==> r[t] == tokens[t]
  {
    map t | t in tokens && now <= tokens[t].expires :: tokens[t]
  }

  function Without(tokens: Tokens, app: string): Tokens { map t | t in tokens && tokens[t].app != app :: tokens[t] }

  /** One override set, or removed. */
  function WithOverride(rows: Rows, key: string, ou: int, enabled: Option<bool>): Rows {
    rows[key := match enabled case None => RowsOf(rows, key) - {ou} case Some(b) => RowsOf(rows, key)[ou := b]]
  }

  predicate Closes(g: Graph, rows: Rows, after: Rows, key: string) {
    exists id :: id in g.nodes && ClosesAt(g, id, RowsOf(rows, key), RowsOf(after, key))
  }

  /** The unit's path leaves the app open under the overrides before and closes it under those after. */
  ghost predicate ClosesAlong(g: Graph, id: int, path: seq<int>, rows: Rows, after: Rows, key: string) {
    && PathOf(g, id, path)
    && (key in rows ==> !ClosedAlong(path, rows[key])) && key in after && ClosedAlong(path, after[key])
  }

  lemma ClosesMeans(g: Graph, rows: Rows, after: Rows, key: string)
    requires Sound(g)
    ensures Closes(g, rows, after, key) <==>
      exists id, path :: id in g.nodes && ClosesAlong(g, id, path, rows, after, key)
  {
    forall id | id in g.nodes
      ensures ClosesAt(g, id, RowsOf(rows, key), RowsOf(after, key)) <==>
        exists path :: ClosesAlong(g, id, path, rows, after, key)
    {
      ClosesAtExactly(g, id, RowsOf(rows, key), RowsOf(after, key));
      hide ClosesAt, PathOf, Sound;
      if ClosesAt(g, id, RowsOf(rows, key), RowsOf(after, key)) {
        var path :|
          PathOf(g, id, path) && !ClosedAlong(path, RowsOf(rows, key)) && ClosedAlong(path, RowsOf(after, key));
        assert ClosesAlong(g, id, path, rows, after, key);
      }
    }
    hide ClosesAt, ClosesAlong;
  }

  /** A change that closes the app for no unit leaves it open for everyone it was open for. */
  lemma NobodyCloses(g: Graph, users: Users, rows: Rows, after: Rows, key: string, user: string)
    requires Sound(g) && Placed(g, users)
    requires !Closes(g, rows, after, key) && Open(ViewOf(g, users, user), rows, key)
    ensures Open(ViewOf(g, users, user), after, key)
  {
    if user in users {
      assert g.deflt.value in Defaults(g.nodes);
      var id := EffectiveOU(g, users[user]);
      assert !ClosesAt(g, id, RowsOf(rows, key), RowsOf(after, key));
    }
  }

  /** The override change and the revocation that follows it keep every remaining holder open. */
  lemma ChangeKeeps(g: Graph, users: Users, rows: Rows, key: string, ou: int, enabled: Option<bool>, tokens: Tokens)
    requires Sound(g) && Placed(g, users) && HoldersOpen(g, users, rows, tokens)
    ensures var after := WithOverride(rows, key, ou, enabled);
      HoldersOpen(g, users, after, if Closes(g, rows, after, key) then Without(tokens, key) else tokens)
  {
    var after := WithOverride(rows, key, ou, enabled);
    var kept := if Closes(g, rows, after, key) then Without(tokens, key) else tokens;
    forall t | t in kept ensures Open(ViewOf(g, users, kept[t].user), after, kept[t].app) {
      if kept[t].app == key {
        NobodyCloses(g, users, rows, after, key, kept[t].user);
      }
    }
  }

  /** Revocation is not needed for a change that closes nowhere, and any change that closes some unit may
      leave a holder behind: that unit's users. */
  lemma ClosingStrands(g: Graph, rows: Rows, after: Rows, key: string, id: int, name: string)
    requires id in g.nodes && id != 0 && ClosesAt(g, id, RowsOf(rows, key), RowsOf(after, key))
    ensures var users := map[name := User(true, false, id)];
      Open(ViewOf(g, users, name), rows, key) && !Open(ViewOf(g, users, name), after, key)
  {
  }

  class Portal {
    const graph: Graph
    const users: Users
    var rows: Rows
    var tokens: Tokens

    predicate Valid()
      reads this
    {
      Sound(graph) && Placed(graph, users) && HoldersOpen(graph, users, rows, tokens)
    }

    constructor (graph: Graph, users: Users, rows: Rows)
      requires Sound(graph) && Placed(graph, users)
      ensures Valid() && this.graph == graph && this.users == users && this.rows == rows && tokens == map[]
    {
      this.graph, this.users, this.rows, this.tokens := graph, users, rows, map[];
    }

    method Prune(now: int)
      requires Valid()
      modifies this`tokens
      ensures Valid() && tokens == Live(old(tokens), now)
    {
      var left := tokens.Keys;
      ghost var before := tokens;
      while left != {}
        invariant left <= before.Keys
        invariant tokens.Keys <= before.Keys && forall t :: t in tokens ==> tokens[t] == before[t]
        invariant forall t :: t in before && t !in left ==> (t in tokens <==> now <= before[t].expires)
        invariant forall t :: t in left ==> t in tokens
        decreases |left|
      {
        ghost var w := FiniteSets.Member(left);
        var t :| t in left;
        if now > tokens[t].expires { tokens := tokens - {t}; }
        left := left - {t};
      }
    }

    /** Opening an app: refused when the app is closed for the user, otherwise one fresh token. */
    method MintForApp(user: string, key: string, scopes: set<string>, token: string, now: int, ttl: int)
      returns (ok: bool)
      requires Valid() && ttl >= 0 && token !in tokens
      modifies this`tokens
      ensures Valid()
      ensures ok <==> MayOpen(graph, users, rows, user, key)
      ensures tokens == if ok then Live(old(tokens), now)[token := Entry(scopes, now + ttl, key, user)] else old(tokens)
    {
      OpenExactly(graph, users, rows, user, key);
      hide MayOpen, Sound, Placed, ViewOf, OpenForKey;
      if !OpenQuiet(graph, users, rows, user, key) { return false; }
      Prune(now);
      tokens := tokens[token := Entry(scopes, now + ttl, key, user)];
      ok := true;
    }

    /** A token is good up to its expiry for the scope it holds; an expired one is dropped on sight. */
    method CheckToken(token: string, need: string, now: int) returns (ok: bool)
      requires Valid()
      modifies this`tokens
      ensures Valid()
      ensures ok <==> token != "" && token in old(tokens) && now <= old(tokens)[token].expires
                      && (need == "" || need in old(tokens)[token].scopes)
      ensures
        var expired := token != "" && token in old(tokens) && now > old(tokens)[token].expires;
        tokens == if expired then old(tokens) - {token} else old(tokens)
      ensures ok ==> MayOpen(graph, users, rows, old(tokens)[token].user, old(tokens)[token].app)
    {
      if token in tokens { OpenExactly(graph, users, rows, tokens[token].user, tokens[token].app); }
      hide MayOpen, Sound, Placed, ViewOf;
      if token == "" { return false; }
      if token !in tokens || now > tokens[token].expires {
        if token in tokens { tokens := tokens - {token}; }
        return false;
      }
      ok := need == "" || need in tokens[token].scopes;
    }

    method RevokeApp(key: string)
      modifies this`tokens
      ensures tokens == Without(old(tokens), key)
    {
      tokens := Without(tokens, key);
    }

    /** The administrator's change of one override: the tokens of the app go exactly when it closes the
        app somewhere. */
    method SetAccess(key: string, ou: int, enabled: Option<bool>) returns (found: bool)
      requires Valid()
      modifies this`rows, this`tokens
      ensures Valid()
      ensures found <==> ou in graph.nodes
      ensures rows == if found then WithOverride(old(rows), key, ou, enabled) else old(rows)
      ensures tokens == if found && Closes(graph, old(rows), rows, key) then Without(old(tokens), key) else old(tokens)
      ensures found ==>
        && key in rows && rows == old(rows)[key := rows[key]]
        && (forall id :: id != ou ==> (id in rows[key] <==> key in old(rows) && id in old(rows)[key]))
        && (forall id :: id != ou && id in rows[key] ==> rows[key][id] == old(rows)[key][id])
        && if enabled.None? then ou !in rows[key] else ou in rows[key] && rows[key][ou] == enabled.value
      ensures found && (exists id, path :: id in graph.nodes && ClosesAlong(graph, id, path, old(rows), rows, key))
        ==> tokens == map t | t in old(tokens) && old(tokens)[t].app != key :: old(tokens)[t]
      ensures !found || (forall id, path :: id in graph.nodes ==> !ClosesAlong(graph, id, path, old(rows), rows, key))
        ==> tokens == old(tokens)
    {
      if ou !in graph.nodes { return false; }
      ChangeKeeps(graph, users, rows, key, ou, enabled, tokens);
      var before := RowsOf(rows, key);
      rows := WithOverride(rows, key, ou, enabled);
      var closes := ClosesSomewhere(graph, before, RowsOf(rows, key));
      ClosesMeans(graph, old(rows), rows, key);
      if closes { RevokeApp(key); }
      found := true;
    }
  }
}
