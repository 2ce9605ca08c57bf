/**
 Whole runs of one connection: any interleaving of constructing, binding, stepping, calling, clearing and
 destroying commands, of reconfiguring and clearing the cache, and of closing the connection.

 Two results cover every run. Conservation: each statement ever prepared is in exactly one place.
 Transparency: what the commands show does not depend on the cache at all.
 */
module CommandRuns {
  import opened Prelude
  import opened SqliteStatements
  import opened StatementCache
  import opened SchemaKeywords
  import opened Commands

  type CmdId = nat

  datatype Action =
    | Bind(idx: int, v: Value) | BindNext(v: Value) | Step | Call(args: seq<Value>) | Clear | Rewind

  datatype Op =
    | Construct(id: CmdId, sql: string) | On(id: CmdId, action: Action) | Destroy(id: CmdId)
    | Configure(cfg: Config) | ClearCache | Close

  datatype World = World(session: Session, commands: map<CmdId, Cmd>)

  function Do(sys: System, s: Session, cmd: Cmd, action: Action): Ran
    requires cmd.stmt.Some? ==> cmd.stmt.value in s.engine.stmts
  {
    match action
    case Bind(idx, v) => s.Bind(sys, cmd, idx, v)
    case BindNext(v) => s.BindNext(sys, cmd, v)
    case Step => s.Step(sys, cmd)
    case Call(args) => s.Call(sys, cmd, args)
    case Clear => Ran(s.Rewind(cmd), cmd.(lastArg := 0), Completed)
    case Rewind => Ran(s.Rewind(cmd), cmd, Completed)
  }

  // ----- Conservation -----

  predicate Cacheable(sys: System, sql: string) {
    sys.compile(sql).Program? && !IsSchemaChanging(sql)
  }

  /** The statements alive are the cached ones and the `held` ones, without overlap; all belong to the open handle. */
  ghost predicate Partitioned(sys: System, s: Session, held: set<StmtId>) {
    && s.Sound()
    && s.engine.stmts.Keys == Elements(Stmts(s.cache.lru)) + held
    && Elements(Stmts(s.cache.lru)) !! held
    && (forall st :: st in s.engine.stmts ==> s.handle == Some(s.engine.stmts[st].owner))
    && (forall i :: 0 <= i < |s.cache.lru| ==>
          CacheEntryOk(sys, s.engine, s.cache.lru[i]))
  }

  ghost predicate CacheEntryOk(sys: System, e: Engine, entry: Entry) {
    entry.stmt in e.stmts && e.stmts[entry.stmt].text == entry.sql && Cacheable(sys, entry.sql)
  }

  ghost function HeldBy(commands: map<CmdId, Cmd>): set<StmtId> {
    set id | id in commands && commands[id].stmt.Some? :: commands[id].stmt.value
  }

  ghost function Own(cmd: Cmd): set<StmtId> {
    if cmd.stmt.Some? then {cmd.stmt.value} else {}
  }

  /** A command's statement was compiled from its text; a command without one has a text without a program. */
  ghost predicate CommandOk(sys: System, e: Engine, cmd: Cmd) {
    match cmd.stmt
    case Some(st) => st in e.stmts && e.stmts[st].text == cmd.sql && sys.compile(cmd.sql).Program?
    case None => sys.compile(cmd.sql).NoProgram?
  }

  ghost predicate Inv(sys: System, w: World) {
    && Partitioned(sys, w.session, HeldBy(w.commands))
    && (forall id :: id in w.commands ==> CommandOk(sys, w.session.engine, w.commands[id]))
    && (forall id, id' :: id in w.commands && id' in w.commands && id != id' && w.commands[id].stmt.Some? ==>
          w.commands[id].stmt != w.commands[id'].stmt)
  }

  ghost function Apply(sys: System, w: World, op: Op): (World, Outcome)
    requires Inv(sys, w)
  {
    match op
    case Construct(id, sql) =>
      if id in w.commands then (w, Ignored)
      else
        var r := w.session.Prepare(sys, Cmd(sql, None, 0));
        (World(r.session, if r.outcome == Completed then w.commands[id := r.cmd] else w.commands), r.outcome)
    case On(id, action) =>
      if id !in w.commands then (w, Ignored)
      else
        var r := Do(sys, w.session, w.commands[id], action);
        (World(r.session, w.commands[id := r.cmd]), r.outcome)
    case Destroy(id) =>
      if id !in w.commands then (w, Ignored)
      else
        HeldIsOwned(sys, w, id);
        var r := w.session.Finalize(w.commands[id]);
        (World(r.session, w.commands - {id}), Completed)
    case Configure(cfg) => (w.(session := w.session.Configure(cfg)), Completed)
    case ClearCache => (w.(session := w.session.Clear()), Completed)
    case Close =>
      var c := w.session.Close();
      (w.(session := c.session), c.outcome)
  }

  lemma HeldIsOwned(sys: System, w: World, id: CmdId)
    requires Inv(sys, w) && id in w.commands
    ensures w.session.Owned(w.commands[id].stmt)
    ensures w.commands[id].stmt.Some? ==> w.commands[id].stmt.value in HeldBy(w.commands)
  {
  }

  /** `s'` is `s` except for the view of the statement `st` and the database content. */
  ghost predicate OnlyView(s: Session, s': Session, st: StmtId) {
    && st in s.engine.stmts && st in s'.engine.stmts
    && s' == Session(s.handle, s.cache,
                     Engine(s.engine.stmts[st := s.engine.stmts[st].(view := s'.engine.stmts[st].view)],
                            s.engine.finalized, s.engine.next, s'.engine.image))
  }

  lemma {:induction false} BindAllOnlyView(sys: System, s: Session, cmd: Cmd, args: seq<Value>)
    requires cmd.stmt.Some? && cmd.stmt.value in s.engine.stmts
    ensures var r := s.BindAll(sys, cmd, args);
            OnlyView(s, r.session, cmd.stmt.value) && r.cmd == cmd.(lastArg := r.cmd.lastArg)
    decreases args
  {
    if args == [] {
    } else {
      var r := s.BindNext(sys, cmd, args[0]);
      if r.outcome == Completed {
        BindAllOnlyView(sys, r.session, r.cmd, args[1..]);
      }
    }
  }

  /** Using a command touches no statement but its own. */
  lemma DoOnlyView(sys: System, s: Session, cmd: Cmd, action: Action)
    requires cmd.stmt.Some? ==> cmd.stmt.value in s.engine.stmts
    ensures var r := Do(sys, s, cmd, action);
            && r.cmd == cmd.(lastArg := r.cmd.lastArg)
            && (if cmd.stmt.Some? then OnlyView(s, r.session, cmd.stmt.value) else r.session == s)
  {
    if cmd.stmt.Some? {
      if action.Call? && action.args != [] {
        BindAllOnlyView(sys, s.Rewind(cmd), cmd, action.args);
      }
    } else if action.Call? && action.args != [] {
      var r := s.BindNext(sys, cmd, action.args[0]);
      assert r.outcome != Completed;
    }
  }

  lemma OnlyViewKeeps(sys: System, s: Session, s': Session, st: StmtId, held: set<StmtId>)
    requires Partitioned(sys, s, held) && OnlyView(s, s', st)
    ensures Partitioned(sys, s', held)
  {
  }

  /** Reconfiguring finalizes the cached statements and no others. */
  lemma ConfigureKeeps(sys: System, s: Session, held: set<StmtId>, cfg: Config)
    requires Partitioned(sys, s, held)
    ensures var s' := s.Configure(cfg);
            && Partitioned(sys, s', held) && s'.handle == s.handle && s'.engine.image == s.engine.image
            && s'.cache.lru == [] && s'.engine.stmts.Keys == held
            && forall h :: h in held ==> s'.engine.stmts[h] == s.engine.stmts[h]
  {
  }

  /** A fresh statement for a text that compiles. */
  lemma CompileKeeps(sys: System, s: Session, held: set<StmtId>, cmd: Cmd)
    requires Partitioned(sys, s, held) && s.handle.Some? && sys.compile(cmd.sql).Program?
    ensures var r := s.Compile(sys, cmd);
            && r.cmd.stmt == Some(s.engine.next) && s.engine.next !in s.engine.stmts
            && Partitioned(sys, r.session, held + {s.engine.next})
  {
  }

  /** The cached statements before and after a hit. */
  lemma ElementsWithout(lru: seq<Entry>, i: nat)
    requires i < |lru| && Distinct(Stmts(lru))
    ensures Elements(Stmts(Without(lru, i))) == Elements(Stmts(lru)) - {lru[i].stmt}
    ensures lru[i].stmt in Stmts(lru)
    ensures forall k :: 0 <= k < |Without(lru, i)| ==> Without(lru, i)[k] in lru
  {
    assert Stmts(Without(lru, i)) == Stmts(lru)[..i] + Stmts(lru)[i + 1..];
    DistinctWithout(Stmts(lru), i);
    assert Stmts(lru)[i] == lru[i].stmt;
  }

  /** A hit moves the statement from the cache to the command, rewound and unbound; a miss changes nothing. */
  lemma AcquireKeepsPartition(sys: System, s: Session, held: set<StmtId>, sql: string)
    requires Partitioned(sys, s, held) && s.handle.Some?
    ensures var (s', hit) := s.AcquireCached(sql);
            && s'.handle == s.handle && s'.engine.image == s.engine.image
            && (hit.None? ==> s' == s)
            && (hit.Some? ==>
                  && hit.value !in held && Cacheable(sys, sql)
                  && hit.value in s'.engine.stmts && s'.engine.stmts[hit.value] == Stmt(sql, s.handle.value, FRESH)
                  && Partitioned(sys, s', held + {hit.value})
                  && forall h :: h in held ==> h in s.engine.stmts && s'.engine.stmts[h] == s.engine.stmts[h])
  {
    var (s', hit) := s.AcquireCached(sql);
    var i := IndexOf(s.cache.lru, sql);
    s.cache.AcquireKeeps(s.engine, s.handle.value, sql);
    s.cache.Conserves(s.engine, s.handle.value, sql, 0, s.cache.config);
    if s.cache.On() && i < |s.cache.lru| {
      assert CacheEntryOk(sys, s.engine, s.cache.lru[i]);
      ElementsWithout(s.cache.lru, i);
      assert hit == Some(s.cache.lru[i].stmt);
      assert s'.engine.stmts.Keys == s.engine.stmts.Keys;
      assert s'.engine.stmts[hit.value] == Stmt(sql, s.handle.value, FRESH);
      forall k | 0 <= k < |s'.cache.lru| ensures CacheEntryOk(sys, s'.engine, s'.cache.lru[k]) {
        assert s'.cache.lru[k] in s.cache.lru;
        var j :| 0 <= j < |s.cache.lru| && s.cache.lru[j] == s'.cache.lru[k];
        assert CacheEntryOk(sys, s.engine, s.cache.lru[j]);
      }
    }
  }

  /**
   Constructing a command: for an open connection the outcome depends on the text alone, and the
   statement obtained is fresh to look at and in nobody else's hands, cached or not.
   */
  lemma PrepareKeeps(sys: System, s: Session, held: set<StmtId>, cmd: Cmd)
    requires Partitioned(sys, s, held) && cmd.stmt.None?
    ensures var r := s.Prepare(sys, cmd);
            && r.session.handle == s.handle && r.session.engine.image == s.engine.image
            && r.cmd == cmd.(stmt := r.cmd.stmt)
            && r.outcome == (if s.handle.None? then NotOpen
                             else match sys.compile(cmd.sql)
                                  case Rejected(code) => Errored(code)
                                  case _ => Completed)
            && (r.cmd.stmt.Some? <==> s.handle.Some? && sys.compile(cmd.sql).Program?)
            && (forall h :: h in held ==> h in s.engine.stmts && h in r.session.engine.stmts
                                          && r.session.engine.stmts[h] == s.engine.stmts[h])
            && match r.cmd.stmt {
                 case None => Partitioned(sys, r.session, held)
                 case Some(st) =>
                   && st !in held && st in r.session.engine.stmts
                   && r.session.engine.stmts[st] == Stmt(cmd.sql, s.handle.value, FRESH)
                   && Partitioned(sys, r.session, held + {st})
               }
  {
    if s.handle.Some? {
      if IsSchemaChanging(cmd.sql) {
        ConfigureKeeps(sys, s, held, s.cache.config);
        if sys.compile(cmd.sql).Program? {
          CompileKeeps(sys, s.Clear(), held, cmd);
        }
      } else {
        AcquireKeepsPartition(sys, s, held, cmd.sql);
        if s.AcquireCached(cmd.sql).1.None? && sys.compile(cmd.sql).Program? {
          CompileKeeps(sys, s, held, cmd);
        }
      }
    }
  }

  /** Finalizing a held statement. */
  lemma DiscardKeeps(sys: System, s: Session, held: set<StmtId>, st: StmtId)
    requires Partitioned(sys, s, held) && st in held
    ensures Partitioned(sys, s.(engine := s.engine.Finalize(st)), held - {st})
  {
    var e := s.engine.Finalize(st);
    s.engine.FinalizeConserves(st);
    s.cache.FinalizeOther(s.engine, st);
    forall i | 0 <= i < |s.cache.lru| ensures CacheEntryOk(sys, e, s.cache.lru[i]) {
      assert CacheEntryOk(sys, s.engine, s.cache.lru[i]);
      assert Stmts(s.cache.lru)[i] == s.cache.lru[i].stmt;
    }
  }

  /** The entries that stay are as good after one cached statement is finalized. */
  lemma EntriesAfterFinalize(sys: System, s: Session, held: set<StmtId>, n: nat)
    requires Partitioned(sys, s, held) && n == |s.cache.lru| - 1
    ensures s.cache.lru[n].stmt in s.engine.stmts
    ensures forall i :: 0 <= i < n ==> CacheEntryOk(sys, s.engine.Finalize(s.cache.lru[n].stmt), s.cache.lru[i])
  {
  }

  /** Eviction finalizes one cached statement at most. */
  lemma EvictKeepsPartition(sys: System, s: Session, held: set<StmtId>, st: StmtId)
    requires Partitioned(sys, s, held) && st in held
    ensures var c := s.cache.Evict(s.engine);
            Partitioned(sys, Session(s.handle, c.cache, c.engine), held)
  {
    var n := |s.cache.lru| - 1;
    var c := s.cache.Evict(s.engine);
    s.cache.EvictKeeps(s.engine, st);
    if c.cache.lru != s.cache.lru {
      EntriesAfterFinalize(sys, s, held, n);
      s.engine.FinalizeConserves(s.cache.lru[n].stmt);
      ElementsWithout(s.cache.lru, n);
      assert Without(s.cache.lru, n) == c.cache.lru == s.cache.lru[..n];
    }
  }

  /** Releasing into a cache with room moves a held statement to the front of the list. */
  lemma PushKeepsPartition(sys: System, s: Session, held: set<StmtId>, sql: string, st: StmtId)
    requires Partitioned(sys, s, held) && st in held && CacheEntryOk(sys, s.engine, Entry(sql, st))
    requires s.cache.On() && |s.cache.lru| < s.cache.config.capacity
    requires forall k :: 0 <= k < |s.cache.lru| ==> s.cache.lru[k].sql != sql
    ensures Partitioned(sys, s.(cache := s.cache.(lru := [Entry(sql, st)] + s.cache.lru)), held - {st})
  {
    var grown := [Entry(sql, st)] + s.cache.lru;
    s.cache.PushKeeps(s.engine, sql, st);
    assert Stmts(grown) == [st] + Stmts(s.cache.lru);
    assert forall i :: 0 < i < |grown| ==> grown[i] == s.cache.lru[i - 1];
    assert Elements(Stmts(grown)) == {st} + Elements(Stmts(s.cache.lru));
  }

  /** Ending a command hands its statement to the cache or finalizes it; either way nobody holds it any more. */
  lemma FinalizeKeeps(sys: System, s: Session, held: set<StmtId>, cmd: Cmd)
    requires Partitioned(sys, s, held) && CommandOk(sys, s.engine, cmd)
    requires cmd.stmt.Some? ==> cmd.stmt.value in held
    ensures var r := s.Finalize(cmd);
            && r.session.handle == s.handle && r.session.engine.image == s.engine.image
            && Partitioned(sys, r.session, if cmd.stmt.Some? then held - {cmd.stmt.value} else held)
            && forall h :: h in held && cmd.stmt != Some(h) ==>
                 h in s.engine.stmts && h in r.session.engine.stmts && r.session.engine.stmts[h] == s.engine.stmts[h]
  {
    if cmd.stmt.Some? {
      var st := cmd.stmt.value;
      assert s.handle.Some?;
      DiscardKeeps(sys, s, held, st);
      if !IsSchemaChanging(cmd.sql) && s.cache.On() && IndexOf(s.cache.lru, cmd.sql) == |s.cache.lru| {
        var c := s.cache.Evict(s.engine);
        s.cache.EvictKeeps(s.engine, st);
        EvictKeepsPartition(sys, s, held, st);
        PushKeepsPartition(sys, Session(s.handle, c.cache, c.engine), held, cmd.sql, st);
      }
    }
  }

  /** Closing succeeds exactly when no statement is held, and then none is left. */
  lemma CloseKeeps(sys: System, s: Session, held: set<StmtId>)
    requires Partitioned(sys, s, held)
    ensures var c := s.Close();
            && Partitioned(sys, c.session, held) && c.session.engine.image == s.engine.image
            && c.outcome == (if s.handle.None? then NotOpen else if held == {} then Completed else Busy)
            && c.session.handle == (if held == {} then None else s.handle)
            && forall h :: h in held ==> c.session.engine.stmts[h] == s.engine.stmts[h]
  {
    if s.handle.Some? {
      ConfigureKeeps(sys, s, held, s.cache.config);
      var s' := s.Clear();
      if held != {} {
        var st :| st in held;
        assert st in s'.engine.stmts && s'.engine.stmts[st].owner == s.handle.value;
      }
    } else {
      assert s.engine.stmts.Keys == {};
    }
  }

  /** Another command's statement after one command has been replaced or removed. */
  lemma HeldAfter(w: World, id: CmdId, cmd: Cmd)
    requires forall a, b :: a in w.commands && b in w.commands && a != b && w.commands[a].stmt.Some? ==>
               w.commands[a].stmt != w.commands[b].stmt
    ensures id in w.commands ==> HeldBy(w.commands - {id}) == HeldBy(w.commands) - Own(w.commands[id])
    ensures id !in w.commands || w.commands[id].stmt == cmd.stmt ==>
              HeldBy(w.commands[id := cmd]) == HeldBy(w.commands) + Own(cmd)
  {
    var others := w.commands - {id};
    var grown := w.commands[id := cmd];
    assert forall a :: a in others <==> a in w.commands && a != id;
    forall st | st in HeldBy(others) ensures st in HeldBy(w.commands) && st in HeldBy(grown) {
      var a :| a in others && others[a].stmt == Some(st);
      assert w.commands[a].stmt == Some(st) && grown[a].stmt == Some(st);
    }
    forall st | st in HeldBy(w.commands)
      ensures st in HeldBy(others) || (id in w.commands && w.commands[id].stmt == Some(st))
    {
      var a :| a in w.commands && w.commands[a].stmt == Some(st);
      if a != id {
        assert others[a].stmt == Some(st);
      }
    }
    forall st | st in HeldBy(grown) ensures st in HeldBy(others) || cmd.stmt == Some(st) {
      var a :| a in grown && grown[a].stmt == Some(st);
      if a != id {
        assert others[a].stmt == Some(st);
      }
    }
    assert grown[id] == cmd;
    if id in w.commands && w.commands[id].stmt.Some? {
      forall a | a in others ensures others[a].stmt != w.commands[id].stmt {}
    }
  }

  lemma ConstructKeeps(sys: System, w: World, id: CmdId, sql: string)
    requires Inv(sys, w) && id !in w.commands
    ensures Inv(sys, Apply(sys, w, Construct(id, sql)).0)
  {
    var r := w.session.Prepare(sys, Cmd(sql, None, 0));
    AllHeld(sys, w);
    PrepareKeeps(sys, w.session, HeldBy(w.commands), Cmd(sql, None, 0));
    HeldAfter(w, id, r.cmd);
    if r.outcome == Completed {
      assert CommandOk(sys, r.session.engine, r.cmd);
      assert HeldBy(w.commands[id := r.cmd]) == HeldBy(w.commands) + Own(r.cmd);
    }
  }

  lemma ViewChangeHeld(w: World, id: CmdId, cmd: Cmd)
    requires id in w.commands && cmd.stmt == w.commands[id].stmt
    ensures HeldBy(w.commands[id := cmd]) == HeldBy(w.commands)
  {
    var grown := w.commands[id := cmd];
    assert grown.Keys == w.commands.Keys;
    assert forall a :: a in grown ==> grown[a].stmt == w.commands[a].stmt;
  }

  lemma ViewChangeOk(sys: System, w: World, id: CmdId, s: Session, cmd: Cmd)
    requires Inv(sys, w) && id in w.commands && cmd == w.commands[id].(lastArg := cmd.lastArg)
    requires if cmd.stmt.Some? then OnlyView(w.session, s, cmd.stmt.value) else s == w.session
    ensures forall a :: a in w.commands ==> CommandOk(sys, s.engine, w.commands[id := cmd][a])
  {
  }

  /** A change of one command's view and position keeps the invariant. */
  lemma ViewChangeKeeps(sys: System, w: World, id: CmdId, s: Session, cmd: Cmd)
    requires Inv(sys, w) && id in w.commands && cmd == w.commands[id].(lastArg := cmd.lastArg)
    requires if cmd.stmt.Some? then OnlyView(w.session, s, cmd.stmt.value) else s == w.session
    ensures Inv(sys, World(s, w.commands[id := cmd]))
  {
    ViewChangeHeld(w, id, cmd);
    ViewChangeOk(sys, w, id, s, cmd);
    if cmd.stmt.Some? {
      OnlyViewKeeps(sys, w.session, s, cmd.stmt.value, HeldBy(w.commands));
    }
  }

  lemma OnKeeps(sys: System, w: World, id: CmdId, action: Action)
    requires Inv(sys, w) && id in w.commands
    ensures Inv(sys, Apply(sys, w, On(id, action)).0)
  {
    var r := Do(sys, w.session, w.commands[id], action);
    assert CommandOk(sys, w.session.engine, w.commands[id]);
    DoOnlyView(sys, w.session, w.commands[id], action);
    ViewChangeKeeps(sys, w, id, r.session, r.cmd);
  }

  lemma OthersKeepOk(sys: System, w: World, id: CmdId, s: Session)
    requires Inv(sys, w) && id in w.commands
    requires forall h :: h in HeldBy(w.commands) && w.commands[id].stmt != Some(h) ==>
               h in w.session.engine.stmts && h in s.engine.stmts && s.engine.stmts[h] == w.session.engine.stmts[h]
    ensures forall a :: a in w.commands - {id} ==> CommandOk(sys, s.engine, w.commands[a])
  {
  }

  lemma DestroyKeeps(sys: System, w: World, id: CmdId)
    requires Inv(sys, w) && id in w.commands
    ensures Inv(sys, Apply(sys, w, Destroy(id)).0)
  {
    var cmd := w.commands[id];
    HeldIsOwned(sys, w, id);
    assert CommandOk(sys, w.session.engine, cmd);
    FinalizeKeeps(sys, w.session, HeldBy(w.commands), cmd);
    OthersKeepOk(sys, w, id, w.session.Finalize(cmd).session);
    HeldAfter(w, id, cmd);
  }

  lemma ManageKeeps(sys: System, w: World, op: Op)
    requires Inv(sys, w) && (op.Configure? || op.ClearCache? || op.Close?)
    ensures Inv(sys, Apply(sys, w, op).0)
  {
    var held := HeldBy(w.commands);
    AllHeld(sys, w);
    match op {
      case Configure(cfg) => ConfigureKeeps(sys, w.session, held, cfg);
      case ClearCache => ConfigureKeeps(sys, w.session, held, w.session.cache.config);
      case Close => CloseKeeps(sys, w.session, held);
    }
  }

  /** Every operation keeps the invariant. */
  lemma ApplyKeeps(sys: System, w: World, op: Op)
    requires Inv(sys, w)
    ensures Inv(sys, Apply(sys, w, op).0)
  {
    match op {
      case Construct(id, sql) => if id !in w.commands { ConstructKeeps(sys, w, id, sql); }
      case On(id, action) => if id in w.commands { OnKeeps(sys, w, id, action); }
      case Destroy(id) => if id in w.commands { DestroyKeeps(sys, w, id); }
      case _ => ManageKeeps(sys, w, op);
    }
  }

  lemma AllHeld(sys: System, w: World)
    requires Inv(sys, w)
    ensures forall id :: id in w.commands && w.commands[id].stmt.Some? ==>
                           w.commands[id].stmt.value in HeldBy(w.commands)
  {
  }

  /** A connection just opened. */
  ghost function Start(sys: System, handle: Handle, cfg: Config, image: Image): (w: World)
    ensures Inv(sys, w)
  {
    assert Stmts([]) == [];
    World(Session(Some(handle), Cache(cfg, []), Engine(map[], [], 0, image)), map[])
  }

  ghost function Run(sys: System, w: World, ops: seq<Op>): (w': World)
    requires Inv(sys, w)
    ensures Inv(sys, w')
    decreases ops
  {
    if ops == [] then w
    else
      ApplyKeeps(sys, w, ops[0]);
      Run(sys, Apply(sys, w, ops[0]).0, ops[1..])
  }

  /** Where a statement can be. */
  datatype Place = InCommand(id: CmdId) | InCache(i: nat) | InLog(k: nat)

  ghost predicate At(w: World, place: Place, st: StmtId) {
    match place
    case InCommand(id) => id in w.commands && w.commands[id].stmt == Some(st)
    case InCache(i) => i < |w.session.cache.lru| && w.session.cache.lru[i].stmt == st
    case InLog(k) => k < |w.session.engine.finalized| && w.session.engine.finalized[k] == st
  }

  lemma SomewhereOnce(sys: System, w: World, st: StmtId)
    requires Inv(sys, w) && st < w.session.engine.next
    ensures exists place :: At(w, place, st)
  {
    var lru, log := w.session.cache.lru, w.session.engine.finalized;
    if st in Stmts(lru) {
      var i :| 0 <= i < |lru| && Stmts(lru)[i] == st;
      assert At(w, InCache(i), st);
    } else if st in HeldBy(w.commands) {
      var id :| id in w.commands && w.commands[id].stmt == Some(st);
      assert At(w, InCommand(id), st);
    } else {
      var k :| 0 <= k < |log| && log[k] == st;
      assert At(w, InLog(k), st);
    }
  }

  lemma NowhereElse(sys: System, w: World, st: StmtId, p: Place, q: Place)
    requires Inv(sys, w) && At(w, p, st) && At(w, q, st)
    ensures p == q
  {
    var lru := w.session.cache.lru;
    assert forall i :: 0 <= i < |lru| ==> Stmts(lru)[i] == lru[i].stmt;
    assert p.InCache? || q.InCache? ==> st in Elements(Stmts(lru));
    assert p.InCommand? || q.InCommand? ==> st in HeldBy(w.commands);
  }

  /**
   After any run, every statement ever prepared is owned by one command, or cached once, or was finalized
   exactly once, and never two of these: no statement leaks, none is shared, none is finalized twice.
   */
  lemma Conservation(sys: System, handle: Handle, cfg: Config, image: Image, ops: seq<Op>, st: StmtId)
    requires st < Run(sys, Start(sys, handle, cfg, image), ops).session.engine.next
    ensures var w := Run(sys, Start(sys, handle, cfg, image), ops);
            && (exists place :: At(w, place, st))
            && forall p, q :: At(w, p, st) && At(w, q, st) ==> p == q
  {
    var w := Run(sys, Start(sys, handle, cfg, image), ops);
    SomewhereOnce(sys, w, st);
    forall p, q | At(w, p, st) && At(w, q, st) ensures p == q {
      NowhereElse(sys, w, st, p, q);
    }
  }

  /** After any run a cache that is switched off or has no capacity holds nothing. */
  lemma OffHoldsNothing(sys: System, handle: Handle, cfg: Config, image: Image, ops: seq<Op>)
    ensures var cache := Run(sys, Start(sys, handle, cfg, image), ops).session.cache;
            !cache.config.enabled || cache.config.capacity == 0 ==> cache.lru == []
  {
  }

  /** And then constructing a command compiles its text anew, cached statements or not. */
  lemma OffConstructs(sys: System, w: World, id: CmdId, sql: string)
    requires Inv(sys, w) && w.session.handle.Some? && id !in w.commands && sys.compile(sql).Program?
    requires !w.session.cache.config.enabled || w.session.cache.config.capacity == 0
    ensures var (w', _) := Apply(sys, w, Construct(id, sql));
            var e := w.session.engine;
            && w'.commands == w.commands[id := Cmd(sql, Some(e.next), 0)]
            && w'.session.engine ==
               Engine(e.stmts[e.next := Stmt(sql, w.session.handle.value, View(map[], 0))], e.finalized,
                      e.next + 1, e.image)
  {
    var s := w.session;
    s.cache.LookupLaw(s.engine, s.handle.value, sql);
    s.cache.ReconfigureLaw(s.engine, s.cache.config);
    assert s.cache.lru == [] && s.engine.FinalizeAll(Stmts([])) == s.engine by {
      assert Stmts([]) == [] && Elements<StmtId>([]) == {};
    }
  }

  /** And destroying a command finalizes its statement. */
  lemma OffDestroys(sys: System, w: World, id: CmdId)
    requires Inv(sys, w) && id in w.commands && w.commands[id].stmt.Some?
    requires !w.session.cache.config.enabled || w.session.cache.config.capacity == 0
    ensures var e, st := w.session.engine, w.commands[id].stmt.value;
            var e' := Apply(sys, w, Destroy(id)).0.session.engine;
            e'.stmts == e.stmts - {st} && e'.finalized == e.finalized + [st]
  {
    HeldIsOwned(sys, w, id);
    assert CommandOk(sys, w.session.engine, w.commands[id]);
    w.session.cache.ReleaseLaw(w.session.engine, w.commands[id].sql, w.commands[id].stmt.value);
  }

  /** A new configuration takes effect at once. */
  lemma ConfigureTakesEffect(sys: System, w: World, cfg: Config)
    requires Inv(sys, w)
    ensures Apply(sys, w, Configure(cfg)).0.session.cache == Cache(cfg, [])
    ensures Apply(sys, w, ClearCache).0.session.cache == Cache(w.session.cache.config, [])
  {
    w.session.cache.ReconfigureLaw(w.session.engine, cfg);
  }

  /** After any run the owner check of `acquire` cannot fail: a lookup either hands its entry out or changes nothing. */
  lemma OwnerMismatchUnreachable(sys: System, w: World, sql: string)
    requires Inv(sys, w) && w.session.handle.Some?
    ensures var (s, hit) := w.session.AcquireCached(sql);
            hit.None? ==> s == w.session
    ensures forall i :: 0 <= i < |w.session.cache.lru| ==>
              !IsSchemaChanging(w.session.cache.lru[i].sql)
              && w.session.engine.stmts[w.session.cache.lru[i].stmt].owner == w.session.handle.value
  {
  }

  /** Constructing a schema-changing command leaves the cache empty, whether or not its text compiles. */
  lemma SchemaChangeEmptiesCache(sys: System, w: World, id: CmdId, sql: string)
    requires Inv(sys, w) && w.session.handle.Some? && id !in w.commands && IsSchemaChanging(sql)
    ensures Apply(sys, w, Construct(id, sql)).0.session.cache.lru == []
  {
  }

  /** Closing an open connection succeeds if and only if no live command holds a statement. */
  lemma CloseIff(sys: System, w: World)
    requires Inv(sys, w) && w.session.handle.Some?
    ensures var (w', outcome) := Apply(sys, w, Close);
            && (outcome == Completed <==> forall id :: id in w.commands ==> w.commands[id].stmt.None?)
            && (outcome == Completed ==> w'.session.handle.None? && w'.session.engine.stmts == map[])
            && (outcome != Completed ==> outcome == Busy && w'.session.handle == w.session.handle)
  {
  }
}
