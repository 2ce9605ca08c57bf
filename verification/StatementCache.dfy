/**
 The LRU statement cache. `Cache` is the simple form, a sequence of entries with the most recent first;
 the class `StatementCache` keeps the linked list and the index from text to list node that the program
 uses, and every method is proved to do what the simple form does.
 */
module StatementCache {
  import opened Prelude
  import opened SqliteStatements

  datatype Config = Config(capacity: nat, enabled: bool)
  datatype Entry = Entry(sql: string, stmt: StmtId)

  /** The first entry for `sql`, or the length of the list when there is none. */
  function IndexOf(lru: seq<Entry>, sql: string): (i: nat)
    ensures i <= |lru|
    ensures i < |lru| ==> lru[i].sql == sql
    ensures forall j :: 0 <= j < i ==> lru[j].sql != sql
  {
    if lru == [] || lru[0].sql == sql then 0 else 1 + IndexOf(lru[1..], sql)
  }

  function Stmts(lru: seq<Entry>): seq<StmtId> {
    seq(|lru|, i requires 0 <= i < |lru| => lru[i].stmt)
  }

  function Texts(lru: seq<Entry>): seq<string> {
    seq(|lru|, i requires 0 <= i < |lru| => lru[i].sql)
  }

  /** The list after handing out the entry at `i`. */
  function Without(lru: seq<Entry>, i: nat): seq<Entry>
    requires i < |lru|
  {
    lru[..i] + lru[i + 1..]
  }

  datatype Acquired = Acquired(cache: Cache, engine: Engine, stmt: Option<StmtId>)
  datatype Changed = Changed(cache: Cache, engine: Engine)

  datatype Cache = Cache(config: Config, lru: seq<Entry>)
  {
    predicate On() {
      config.enabled && config.capacity != 0
    }

    /** One entry a text, at most `capacity` of them, none while the cache is off. */
    ghost predicate WellFormed() {
      && (forall i, j :: 0 <= i < j < |lru| ==> lru[i].sql != lru[j].sql)
      && |lru| <= config.capacity
      && (!On() ==> lru == [])
    }

    /** The cached statements are alive and distinct. */
    ghost predicate Backed(e: Engine) {
      Distinct(Stmts(lru)) && forall i :: 0 <= i < |lru| ==> lru[i].stmt in e.stmts
    }

    ghost function Acquire(e: Engine, db: Handle, sql: string): Acquired
      requires Backed(e)
    {
      var i := IndexOf(lru, sql);
      if !On() || i == |lru| then
        Acquired(this, e, None)
      else
        var s := lru[i].stmt;
        var rest := this.(lru := Without(lru, i));
        var rewound := e.Reset(s).ClearBindings(s);
        if rewound.stmts[s].owner != db then
          Acquired(rest, rewound.Finalize(s), None)
        else
          Acquired(rest, rewound, Some(s))
    }

    /** Drops the least recently used entry when the cache is full. */
    ghost function Evict(e: Engine): Changed
      requires Backed(e)
    {
      if |lru| >= config.capacity && lru != [] then
        Changed(this.(lru := lru[..|lru| - 1]), e.Finalize(lru[|lru| - 1].stmt))
      else
        Changed(this, e)
    }

    ghost function Release(e: Engine, sql: string, s: StmtId): Changed
      requires Backed(e) && s in e.stmts && s !in Stmts(lru)
    {
      if !On() || IndexOf(lru, sql) < |lru| then
        Changed(this, e.Finalize(s))
      else
        var room := Evict(e);
        Changed(this.(lru := [Entry(sql, s)] + room.cache.lru), room.engine)
    }

    ghost function Reconfigure(e: Engine, cfg: Config): Changed
      requires Backed(e)
    {
      BackedStmts(e);
      Changed(Cache(cfg, []), e.FinalizeAll(Stmts(lru)))
    }

    ghost function Clear(e: Engine): Changed
      requires Backed(e)
    {
      Reconfigure(e, config)
    }

    lemma WithoutKeeps(e: Engine, i: nat)
      requires WellFormed() && Backed(e) && i < |lru|
      ensures var c := this.(lru := Without(lru, i));
              c.WellFormed() && c.Backed(e) && lru[i].stmt !in Stmts(c.lru)
    {
      var rest := Without(lru, i);
      assert Stmts(rest) == Stmts(lru)[..i] + Stmts(lru)[i + 1..];
      DistinctWithout(Stmts(lru), i);
      assert Stmts(lru)[i] == lru[i].stmt;
      assert forall k :: 0 <= k < |rest| ==> rest[k] == lru[if k < i then k else k + 1];
    }

    /** Acquiring keeps the cache well formed, and what is handed out is no longer cached. */
    lemma AcquireKeeps(e: Engine, db: Handle, sql: string)
      requires WellFormed() && Backed(e)
      ensures var r := Acquire(e, db, sql);
              && r.cache.WellFormed() && r.cache.Backed(r.engine)
              && (r.stmt.Some? ==> r.stmt.value in r.engine.stmts && r.stmt.value !in Stmts(r.cache.lru))
    {
      var i := IndexOf(lru, sql);
      if On() && i < |lru| {
        WithoutKeeps(e, i);
        var rest := Without(lru, i);
        assert forall k :: 0 <= k < |rest| ==> Stmts(rest)[k] == rest[k].stmt;
      }
    }

    /** Eviction keeps the cache well formed and leaves room for one more entry. */
    lemma EvictKeeps(e: Engine, s: StmtId)
      requires WellFormed() && Backed(e) && s in e.stmts && s !in Stmts(lru)
      ensures var r := Evict(e);
              && r.cache.WellFormed() && r.cache.Backed(r.engine) && s in r.engine.stmts && s !in Stmts(r.cache.lru)
              && (On() ==> |r.cache.lru| < config.capacity)
              && r.cache.lru <= lru
    {
      if |lru| >= config.capacity && lru != [] {
        var n := |lru| - 1;
        var kept := lru[..n];
        assert Stmts(kept) == Stmts(lru)[..n];
        assert Stmts(lru)[n] == lru[n].stmt;
        forall k | 0 <= k < n ensures kept[k].stmt in e.stmts && kept[k].stmt != lru[n].stmt {
          assert Stmts(lru)[k] == kept[k].stmt && lru[k] == kept[k];
        }
      }
    }

    /** A new front entry keeps a cache with room well formed. */
    lemma PushKeeps(e: Engine, sql: string, s: StmtId)
      requires WellFormed() && Backed(e) && On() && |lru| < config.capacity
      requires s in e.stmts && s !in Stmts(lru) && forall k :: 0 <= k < |lru| ==> lru[k].sql != sql
      ensures var c := this.(lru := [Entry(sql, s)] + lru); c.WellFormed() && c.Backed(e)
    {
      var grown := [Entry(sql, s)] + lru;
      assert Stmts(grown) == [s] + Stmts(lru);
      assert forall k :: 0 < k < |grown| ==> grown[k] == lru[k - 1];
    }

    /** Releasing keeps the cache well formed. */
    lemma ReleaseKeeps(e: Engine, sql: string, s: StmtId)
      requires WellFormed() && Backed(e) && s in e.stmts && s !in Stmts(lru)
      ensures var r := Release(e, sql, s); r.cache.WellFormed() && r.cache.Backed(r.engine)
    {
      if On() && IndexOf(lru, sql) == |lru| {
        EvictKeeps(e, s);
        Evict(e).cache.PushKeeps(Evict(e).engine, sql, s);
      } else {
        forall k | 0 <= k < |lru| ensures lru[k].stmt != s {
          assert Stmts(lru)[k] == lru[k].stmt;
        }
      }
    }

    /** No cache operation loses a statement or finalizes one twice. */
    lemma Conserves(e: Engine, db: Handle, sql: string, s: StmtId, cfg: Config)
      requires WellFormed() && Backed(e) && e.Conserved()
      ensures Acquire(e, db, sql).engine.Conserved()
      ensures Reconfigure(e, cfg).engine.Conserved()
      ensures s in e.stmts && s !in Stmts(lru) ==> Release(e, sql, s).engine.Conserved()
    {
      BackedStmts(e);
      e.FinalizeAllConserves(Stmts(lru));
      var i := IndexOf(lru, sql);
      if i < |lru| {
        e.Reset(lru[i].stmt).ClearBindings(lru[i].stmt).FinalizeConserves(lru[i].stmt);
      }
      if s in e.stmts {
        e.FinalizeConserves(s);
      }
      if lru != [] {
        e.FinalizeConserves(lru[|lru| - 1].stmt);
      }
    }

    /** A cache does not notice the end of a statement that it does not hold. */
    lemma FinalizeOther(e: Engine, s: StmtId)
      requires Backed(e) && s in e.stmts && s !in Stmts(lru)
      ensures Backed(e.Finalize(s))
    {
      forall k | 0 <= k < |lru| ensures lru[k].stmt != s {
        assert Stmts(lru)[k] == lru[k].stmt;
      }
    }

    /**
     What a lookup does, in the cache's own fields: a cache that is on gives away the entry of that text, rewound and
     unbound to a caller with the same handle and finalized otherwise; in all other cases it finds nothing.
     */
    lemma LookupLaw(e: Engine, db: Handle, sql: string)
      requires WellFormed() && Backed(e)
      ensures var r := Acquire(e, db, sql);
              && (!config.enabled || config.capacity == 0 || (forall i :: 0 <= i < |lru| ==> lru[i].sql != sql) ==>
                    r == Acquired(this, e, None))
              && forall i :: 0 <= i < |lru| && lru[i].sql == sql && config.enabled && config.capacity > 0 ==>
                   var s := lru[i].stmt;
                   && r.cache == Cache(config, lru[..i] + lru[i + 1..])
                   && (if e.stmts[s].owner == db then
                         && r.stmt == Some(s) && r.engine.finalized == e.finalized
                         && r.engine.stmts == e.stmts[s := Stmt(e.stmts[s].text, db, View(map[], 0))]
                       else
                         && r.stmt == None && r.engine.finalized == e.finalized + [s]
                         && r.engine.stmts == e.stmts - {s})
    {
    }

    /**
     What giving a statement back does, in the cache's own fields: a cache that is on puts a text it does not have in
     front, at the cost of the last entry if it is full; in all other cases the statement is finalized.
     */
    lemma ReleaseLaw(e: Engine, sql: string, s: StmtId)
      requires WellFormed() && Backed(e) && s in e.stmts && s !in Stmts(lru)
      ensures var r := Release(e, sql, s);
              var n := |lru|;
              if !config.enabled || config.capacity == 0 || exists i :: 0 <= i < n && lru[i].sql == sql then
                r.cache == this && r.engine.stmts == e.stmts - {s} && r.engine.finalized == e.finalized + [s]
              else if n < config.capacity then
                r.cache == Cache(config, [Entry(sql, s)] + lru) && r.engine == e
              else
                && r.cache == Cache(config, [Entry(sql, s)] + lru[..n - 1])
                && r.engine.stmts == e.stmts - {lru[n - 1].stmt}
                && r.engine.finalized == e.finalized + [lru[n - 1].stmt]
    {
    }

    /** A new configuration takes effect on an empty cache; what was cached is finalized in list order, and no more. */
    lemma ReconfigureLaw(e: Engine, cfg: Config)
      requires Backed(e)
      ensures var r := Reconfigure(e, cfg);
              && r.cache == Cache(cfg, []) && Clear(e).cache == Cache(config, []) && Clear(e).engine == r.engine
              && |r.engine.finalized| == |e.finalized| + |lru| && e.finalized <= r.engine.finalized
              && (forall i :: 0 <= i < |lru| ==> r.engine.finalized[|e.finalized| + i] == lru[i].stmt)
              && (forall i :: 0 <= i < |lru| ==> lru[i].stmt !in r.engine.stmts)
              && forall s :: s in e.stmts && (forall i :: 0 <= i < |lru| ==> lru[i].stmt != s) ==>
                   s in r.engine.stmts && r.engine.stmts[s] == e.stmts[s]
    {
      var ids := Stmts(lru);
      assert forall i :: 0 <= i < |lru| ==> ids[i] == lru[i].stmt && ids[i] in ids;
    }

    lemma BackedStmts(e: Engine)
      requires Backed(e)
      ensures forall s :: s in Stmts(lru) ==> s in e.stmts
    {
    }
  }

  /** A list node; the list keeps its nodes' identity when others are added or erased. */
  class Node {
    const sql: string
    const stmt: StmtId

    constructor (sql: string, stmt: StmtId)
      ensures this.sql == sql && this.stmt == stmt
    {
      this.sql, this.stmt := sql, stmt;
    }
  }

  function Entries(nodes: seq<Node>): seq<Entry> {
    seq(|nodes|, i requires 0 <= i < |nodes| => Entry(nodes[i].sql, nodes[i].stmt))
  }

  /** Every node is what the index finds for its text, and the index finds nothing else. */
  ghost predicate Linked(lru: seq<Node>, index: map<string, Node>) {
    && (forall i :: 0 <= i < |lru| ==> lru[i].sql in index && index[lru[i].sql] == lru[i])
    && (forall k :: k in index ==> index[k].sql == k && index[k] in lru)
  }

  /** The index finds exactly the entry that a search of the list finds. */
  lemma IndexFinds(lru: seq<Node>, index: map<string, Node>, sql: string)
    requires Linked(lru, index)
    ensures sql in index <==> IndexOf(Entries(lru), sql) < |lru|
    ensures sql in index ==> lru[IndexOf(Entries(lru), sql)] == index[sql]
  {
    var i := IndexOf(Entries(lru), sql);
    if sql in index {
      var j :| 0 <= j < |lru| && lru[j] == index[sql];
      assert Entries(lru)[j].sql == sql;
    }
    if i < |lru| {
      assert Entries(lru)[i].sql == lru[i].sql;
    }
  }

  /** In a well-formed list the position of a node is the position of its text. */
  lemma NodePosition(lru: seq<Node>, j: nat)
    requires j < |lru|
    requires forall a, b :: 0 <= a < b < |lru| ==> Entries(lru)[a].sql != Entries(lru)[b].sql
    ensures IndexOf(Entries(lru), lru[j].sql) == j
  {
    var i := IndexOf(Entries(lru), lru[j].sql);
    assert Entries(lru)[j].sql == lru[j].sql;
    assert i < |lru| && Entries(lru)[i].sql == Entries(lru)[j].sql;
  }

  /** Erasing a node and its index entry keeps the list and the index in step. */
  lemma Unlink(lru: seq<Node>, index: map<string, Node>, j: nat)
    requires Linked(lru, index) && j < |lru|
    requires forall a, b :: 0 <= a < b < |lru| ==> Entries(lru)[a].sql != Entries(lru)[b].sql
    ensures Entries(lru[..j] + lru[j + 1..]) == Without(Entries(lru), j)
    ensures Linked(lru[..j] + lru[j + 1..], index - {lru[j].sql})
  {
    var rest := lru[..j] + lru[j + 1..];
    forall k | 0 <= k < |rest|
      ensures rest[k] == lru[if k < j then k else k + 1] && rest[k].sql != lru[j].sql
    {
      var k' := if k < j then k else k + 1;
      assert Entries(lru)[k'].sql != Entries(lru)[j].sql;
    }
    forall k | k in index && k != lru[j].sql ensures index[k] in rest {
      var i :| 0 <= i < |lru| && lru[i] == index[k];
      assert rest[if i < j then i else i - 1] == index[k];
    }
  }

  /** A new front node and its index entry keep the list and the index in step. */
  lemma Link(lru: seq<Node>, index: map<string, Node>, node: Node)
    requires Linked(lru, index) && node.sql !in index
    ensures Entries([node] + lru) == [Entry(node.sql, node.stmt)] + Entries(lru)
    ensures Linked([node] + lru, index[node.sql := node])
  {
  }

  class StatementCache {
    const sqlite: Sqlite
    var config: Config
    var lru: seq<Node>
    var index: map<string, Node>

    ghost function Abs(): Cache
      reads this
    {
      Cache(config, Entries(lru))
    }

    /** The list and the index agree node by node, and the list is a well-formed cache of live statements. */
    ghost predicate Valid()
      reads this, sqlite
    {
      Linked(lru, index) && Abs().WellFormed() && Abs().Backed(sqlite.engine)
    }

    constructor (sqlite: Sqlite, cfg: Config)
      ensures Valid() && this.sqlite == sqlite && Abs() == Cache(cfg, [])
    {
      this.sqlite, config, lru, index := sqlite, cfg, [], map[];
    }

    /** `acquire`: hands out the cached statement for `sql`, rewound and unbound. */
    method Acquire(db: Handle, sql: string) returns (r: Option<StmtId>)
      requires Valid()
      modifies this, sqlite
      ensures Valid()
      ensures Acquired(Abs(), sqlite.engine, r) == old(Abs().Acquire(sqlite.engine, db, sql))
    {
      if !config.enabled || config.capacity == 0 {
        return None;
      }
      IndexFinds(lru, index, sql);
      if sql !in index {
        return None;
      }
      var node := index[sql];
      var j :| 0 <= j < |lru| && lru[j] == node;
      NodePosition(lru, j);
      Unlink(lru, index, j);
      Abs().AcquireKeeps(sqlite.engine, db, sql);
      lru := lru[..j] + lru[j + 1..];
      index := index - {sql};
      sqlite.Reset(node.stmt);
      sqlite.ClearBindings(node.stmt);
      var owner := sqlite.engine.stmts[node.stmt].owner;
      if owner != db {
        sqlite.Finalize(node.stmt);
        return None;
      }
      r := Some(node.stmt);
    }

    /** Finalizes and unlinks the back node of a full list. */
    method EvictBack()
      requires Valid() && |lru| >= config.capacity && lru != []
      modifies this, sqlite
      ensures Linked(lru, index) && index.Keys <= old(index.Keys)
      ensures Changed(Abs(), sqlite.engine) == old(Abs().Evict(sqlite.engine))
    {
      var n := |lru| - 1;
      var back := lru[n];
      assert Entries(lru)[n].stmt == back.stmt;
      Unlink(lru, index, n);
      assert lru[..n] + lru[n + 1..] == lru[..n];
      assert Without(Entries(lru), n) == Entries(lru)[..n];
      sqlite.Finalize(back.stmt);
      index := index - {back.sql};
      lru := lru[..n];
    }

    /** `release`: takes a statement back, evicting the least recently used one when the cache is full. */
    method Release(sql: string, s: Option<StmtId>)
      requires Valid()
      requires s.Some? ==> s.value in sqlite.engine.stmts && s.value !in Stmts(Abs().lru)
      modifies this, sqlite
      ensures Valid()
      ensures s.None? ==> Abs() == old(Abs()) && sqlite.engine == old(sqlite.engine)
      ensures s.Some? ==> Changed(Abs(), sqlite.engine) == old(Abs().Release(sqlite.engine, sql, s.value))
    {
      if s.None? {
        return;
      }
      Abs().ReleaseKeeps(sqlite.engine, sql, s.value);
      if !config.enabled || config.capacity == 0 {
        sqlite.Finalize(s.value);
        return;
      }
      IndexFinds(lru, index, sql);
      if sql in index {
        sqlite.Finalize(s.value);
        return;
      }
      Abs().EvictKeeps(sqlite.engine, s.value);
      if |lru| >= config.capacity {
        EvictBack();
      }
      var node := new Node(sql, s.value);
      Link(lru, index, node);
      lru := [node] + lru;
      index := index[sql := node];
    }

    /** `clear`: finalizes every cached statement. */
    method Clear()
      requires Valid()
      modifies this, sqlite
      ensures Valid()
      ensures Changed(Abs(), sqlite.engine) == old(Abs().Clear(sqlite.engine))
    {
      Reset(config);
    }

    /** `reset`: finalizes every cached statement and installs a new configuration. */
    method Reset(cfg: Config)
      requires Valid()
      modifies this, sqlite
      ensures Valid()
      ensures Changed(Abs(), sqlite.engine) == old(Abs().Reconfigure(sqlite.engine, cfg))
    {
      ghost var ids := Stmts(Entries(lru));
      ghost var e := sqlite.engine;
      Abs().BackedStmts(e);
      for i := 0 to |lru|
        invariant lru == old(lru) && ids == Stmts(Entries(lru))
        invariant sqlite.engine == Engine(e.stmts - Elements(ids[..i]), e.finalized + ids[..i], e.next, e.image)
      {
        assert ids[i] == lru[i].stmt && ids[..i + 1] == ids[..i] + [ids[i]];
        assert ids[i] !in ids[..i];
        sqlite.Finalize(lru[i].stmt);
        assert sqlite.engine.stmts == e.stmts - Elements(ids[..i + 1]);
      }
      assert ids[..|lru|] == ids;
      lru := [];
      index := map[];
      config := cfg;
    }
  }
}
