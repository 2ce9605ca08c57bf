/**
 The statement cache cannot be observed. `Seen` is a connection without cache, statement identities or
 finalization: only the view of each command's statement. Every run of the real connection, whatever its
 cache configuration and however often it is reconfigured, shows exactly what this plain machine shows.
 */
module CommandTransparency {
  import opened Prelude
  import opened SqliteStatements
  import opened StatementCache
  import opened Commands
  import opened CommandRuns

  datatype SeenCmd = SeenCmd(sql: string, view: Option<View>, lastArg: int)
  datatype Seen = Seen(open: bool, image: Image, commands: map<CmdId, SeenCmd>)
  datatype SeenRan = SeenRan(image: Image, cmd: SeenCmd, outcome: Outcome)

  function SeenAccess(open: bool, cmd: SeenCmd): Outcome {
    if !open then NotOpen else if cmd.view.None? then NotPrepared else Completed
  }

  function SeenBind(sys: System, open: bool, image: Image, cmd: SeenCmd, idx: int, v: Value): SeenRan {
    if SeenAccess(open, cmd) != Completed then SeenRan(image, cmd, SeenAccess(open, cmd))
    else
      var code := sys.bindError(cmd.sql, cmd.view.value, idx, v);
      if code != 0 then SeenRan(image, cmd, Errored(code))
      else SeenRan(image, cmd.(view := Some(View(cmd.view.value.bindings[idx := v], cmd.view.value.cursor))), Completed)
  }

  function SeenBindAll(sys: System, open: bool, image: Image, cmd: SeenCmd, args: seq<Value>): SeenRan
    decreases args
  {
    if args == [] then SeenRan(image, cmd, Completed)
    else
      var r := SeenBind(sys, open, image, cmd.(lastArg := cmd.lastArg + 1), cmd.lastArg + 1, args[0]);
      if r.outcome == Completed then SeenBindAll(sys, open, r.image, r.cmd, args[1..]) else r
  }

  function SeenStep(sys: System, open: bool, image: Image, cmd: SeenCmd): SeenRan {
    if SeenAccess(open, cmd) != Completed then SeenRan(image, cmd, SeenAccess(open, cmd))
    else
      var r := sys.step(cmd.sql, cmd.view.value, image);
      SeenRan(r.image, cmd.(view := Some(cmd.view.value.(cursor := r.cursor))), StepOutcome(r.code))
  }

  function SeenRewind(cmd: SeenCmd): SeenCmd {
    if cmd.view.None? then cmd else cmd.(view := Some(cmd.view.value.(cursor := 0)))
  }

  function SeenDo(sys: System, open: bool, image: Image, cmd: SeenCmd, action: Action): SeenRan {
    match action
    case Bind(idx, v) => SeenBind(sys, open, image, cmd, idx, v)
    case BindNext(v) => SeenBind(sys, open, image, cmd.(lastArg := cmd.lastArg + 1), cmd.lastArg + 1, v)
    case Step => SeenStep(sys, open, image, cmd)
    case Call(args) =>
      var bound := if args == [] then SeenRan(image, cmd, Completed)
                   else SeenBindAll(sys, open, image, SeenRewind(cmd), args);
      if bound.outcome != Completed then bound
      else
        var r := SeenStep(sys, open, bound.image, bound.cmd);
        if r.outcome.HasRow? then r.(cmd := r.cmd.(lastArg := 0)) else r
    case Clear => SeenRan(image, SeenRewind(cmd).(lastArg := 0), Completed)
    case Rewind => SeenRan(image, SeenRewind(cmd), Completed)
  }

  /** One operation of the plain machine: every command compiles its own text. */
  ghost function SeenApply(sys: System, w: Seen, op: Op): (Seen, Outcome) {
    match op
    case Construct(id, sql) =>
      if id in w.commands then (w, Ignored)
      else if !w.open then (w, NotOpen)
      else (match sys.compile(sql)
            case Program => (w.(commands := w.commands[id := SeenCmd(sql, Some(FRESH), 0)]), Completed)
            case NoProgram => (w.(commands := w.commands[id := SeenCmd(sql, None, 0)]), Completed)
            case Rejected(code) => (w, Errored(code)))
    case On(id, action) =>
      if id !in w.commands then (w, Ignored)
      else
        var r := SeenDo(sys, w.open, w.image, w.commands[id], action);
        (Seen(w.open, r.image, w.commands[id := r.cmd]), r.outcome)
    case Destroy(id) => if id !in w.commands then (w, Ignored) else (w.(commands := w.commands - {id}), Completed)
    case Configure(_) => (w, Completed)
    case ClearCache => (w, Completed)
    case Close =>
      if !w.open then (w, NotOpen)
      else if exists id :: id in w.commands && w.commands[id].view.Some? then (w, Busy)
      else (w.(open := false), Completed)
  }

  function Look(s: Session, cmd: Cmd): SeenCmd
    requires cmd.stmt.Some? ==> cmd.stmt.value in s.engine.stmts
  {
    SeenCmd(cmd.sql, if cmd.stmt.Some? then Some(s.engine.stmts[cmd.stmt.value].view) else None, cmd.lastArg)
  }

  /** What the connection shows: the visible text, bindings, cursor and position of every command, and the database. */
  ghost predicate Shows(w: World, seen: Seen) {
    && seen.open == w.session.handle.Some?
    && seen.image == w.session.engine.image
    && seen.commands.Keys == w.commands.Keys
    && forall id :: id in w.commands ==>
                      Reads(w.session, w.commands[id]) && seen.commands[id] == Look(w.session, w.commands[id])
  }

  /** The text of a command's statement is the command's text. */
  ghost predicate Reads(s: Session, cmd: Cmd) {
    cmd.stmt.Some? ==> cmd.stmt.value in s.engine.stmts && s.engine.stmts[cmd.stmt.value].text == cmd.sql
  }

  lemma {:induction false} BindAllSeen(sys: System, s: Session, cmd: Cmd, args: seq<Value>)
    requires Reads(s, cmd)
    ensures var r := s.BindAll(sys, cmd, args);
            Reads(r.session, r.cmd) && r.session.handle == s.handle &&
            SeenRan(r.session.engine.image, Look(r.session, r.cmd), r.outcome)
            == SeenBindAll(sys, s.handle.Some?, s.engine.image, Look(s, cmd), args)
    decreases args
  {
    if args == [] {
    } else {
      var r := s.BindNext(sys, cmd, args[0]);
      if r.outcome == Completed {
        BindAllSeen(sys, r.session, r.cmd, args[1..]);
      }
    }
  }

  /** Using a command shows what the plain machine shows. */
  lemma DoSeen(sys: System, s: Session, cmd: Cmd, action: Action)
    requires Reads(s, cmd)
    ensures var r := Do(sys, s, cmd, action);
            Reads(r.session, r.cmd) &&
            SeenRan(r.session.engine.image, Look(r.session, r.cmd), r.outcome)
            == SeenDo(sys, s.handle.Some?, s.engine.image, Look(s, cmd), action)
  {
    if action.Call? && action.args != [] {
      BindAllSeen(sys, s.Rewind(cmd), cmd, action.args);
    }
  }

  /** Replacing one command and its view leaves the other commands looking the same. */
  lemma ShowsUpdate(w: World, seen: Seen, s: Session, id: CmdId, cmd: Cmd)
    requires Shows(w, seen) && Reads(s, cmd)
    requires forall a :: a in w.commands && a != id && w.commands[a].stmt.Some? ==>
               w.commands[a].stmt.value in s.engine.stmts &&
               s.engine.stmts[w.commands[a].stmt.value] == w.session.engine.stmts[w.commands[a].stmt.value]
    ensures Shows(
              World(s, w.commands[id := cmd]),
              Seen(s.handle.Some?, s.engine.image, seen.commands[id := Look(s, cmd)]))
    ensures Shows(World(s, w.commands - {id}), Seen(s.handle.Some?, s.engine.image, seen.commands - {id}))
  {
  }

  /** The same when no command is replaced. */
  lemma ShowsKept(w: World, seen: Seen, s: Session)
    requires Shows(w, seen)
    requires forall a :: a in w.commands && w.commands[a].stmt.Some? ==>
               w.commands[a].stmt.value in s.engine.stmts &&
               s.engine.stmts[w.commands[a].stmt.value] == w.session.engine.stmts[w.commands[a].stmt.value]
    ensures Shows(World(s, w.commands), Seen(s.handle.Some?, s.engine.image, seen.commands))
  {
  }

  lemma ConstructSeen(sys: System, w: World, seen: Seen, id: CmdId, sql: string)
    requires Inv(sys, w) && Shows(w, seen) && id !in w.commands
    ensures var (w', outcome) := Apply(sys, w, Construct(id, sql));
            var (seen', outcome') := SeenApply(sys, seen, Construct(id, sql));
            Shows(w', seen') && outcome == outcome'
  {
    var r := w.session.Prepare(sys, Cmd(sql, None, 0));
    PrepareKeeps(sys, w.session, HeldBy(w.commands), Cmd(sql, None, 0));
    AllHeld(sys, w);
    assert Reads(r.session, r.cmd);
    ShowsUpdate(w, seen, r.session, id, r.cmd);
    ShowsKept(w, seen, r.session);
  }

  lemma OnSeen(sys: System, w: World, seen: Seen, id: CmdId, action: Action)
    requires Inv(sys, w) && Shows(w, seen) && id in w.commands
    ensures var (w', outcome) := Apply(sys, w, On(id, action));
            var (seen', outcome') := SeenApply(sys, seen, On(id, action));
            Shows(w', seen') && outcome == outcome'
  {
    var cmd := w.commands[id];
    var r := Do(sys, w.session, cmd, action);
    assert Reads(w.session, cmd);
    DoSeen(sys, w.session, cmd, action);
    DoOnlyView(sys, w.session, cmd, action);
    UntouchedByDo(sys, w, id, r.session);
    ShowsUpdate(w, seen, r.session, id, r.cmd);
  }

  lemma UntouchedByDo(sys: System, w: World, id: CmdId, s: Session)
    requires Inv(sys, w) && id in w.commands
    requires if w.commands[id].stmt.Some? then OnlyView(w.session, s, w.commands[id].stmt.value) else s == w.session
    ensures forall a :: a in w.commands && a != id && w.commands[a].stmt.Some? ==>
              w.commands[a].stmt.value in s.engine.stmts &&
              s.engine.stmts[w.commands[a].stmt.value] == w.session.engine.stmts[w.commands[a].stmt.value]
  {
  }

  lemma DestroySeen(sys: System, w: World, seen: Seen, id: CmdId)
    requires Inv(sys, w) && Shows(w, seen) && id in w.commands
    ensures var (w', outcome) := Apply(sys, w, Destroy(id));
            var (seen', outcome') := SeenApply(sys, seen, Destroy(id));
            Shows(w', seen') && outcome == outcome'
  {
    HeldIsOwned(sys, w, id);
    AllHeld(sys, w);
    var r := w.session.Finalize(w.commands[id]);
    FinalizeKeeps(sys, w.session, HeldBy(w.commands), w.commands[id]);
    assert forall a :: a in w.commands && a != id && w.commands[a].stmt.Some? ==>
                         w.commands[a].stmt != w.commands[id].stmt;
    ShowsUpdate(w, seen, r.session, id, Cmd(w.commands[id].sql, None, 0));
  }

  /** Some command shows a view exactly when some statement is held. */
  lemma HeldIffSeen(w: World, seen: Seen)
    requires Shows(w, seen)
    ensures HeldBy(w.commands) == {} <==> forall id :: id in seen.commands ==> seen.commands[id].view.None?
  {
    forall st | st in HeldBy(w.commands) ensures exists id :: id in seen.commands && seen.commands[id].view.Some? {
      var id :| id in w.commands && w.commands[id].stmt == Some(st);
      assert seen.commands[id].view.Some?;
    }
    forall id | id in seen.commands && seen.commands[id].view.Some? ensures HeldBy(w.commands) != {} {
      assert w.commands[id].stmt.value in HeldBy(w.commands);
    }
  }

  lemma ManageSeen(sys: System, w: World, seen: Seen, op: Op)
    requires Inv(sys, w) && Shows(w, seen) && (op.Configure? || op.ClearCache? || op.Close?)
    ensures var (w', outcome) := Apply(sys, w, op);
            var (seen', outcome') := SeenApply(sys, seen, op);
            Shows(w', seen') && outcome == outcome'
  {
    var held := HeldBy(w.commands);
    AllHeld(sys, w);
    match op {
      case Configure(cfg) => ConfigureKeeps(sys, w.session, held, cfg);
      case ClearCache => ConfigureKeeps(sys, w.session, held, w.session.cache.config);
      case Close =>
        CloseKeeps(sys, w.session, held);
        HeldIffSeen(w, seen);
    }
    ShowsKept(w, seen, Apply(sys, w, op).0.session);
  }

  /** Each operation of the real connection shows what the plain machine shows. */
  lemma ApplySeen(sys: System, w: World, seen: Seen, op: Op)
    requires Inv(sys, w) && Shows(w, seen)
    ensures var (w', outcome) := Apply(sys, w, op);
            var (seen', outcome') := SeenApply(sys, seen, op);
            Shows(w', seen') && outcome == outcome'
  {
    match op {
      case Construct(id, sql) => if id !in w.commands { ConstructSeen(sys, w, seen, id, sql); }
      case On(id, action) => if id in w.commands { OnSeen(sys, w, seen, id, action); }
      case Destroy(id) => if id in w.commands { DestroySeen(sys, w, seen, id); }
      case _ => ManageSeen(sys, w, seen, op);
    }
  }

  /** Managing the cache is not part of what a caller compares. */
  predicate Manages(op: Op) {
    op.Configure? || op.ClearCache?
  }

  /** The run of a program without its cache management. */
  function Uses(ops: seq<Op>): seq<Op> {
    if ops == [] then [] else (if Manages(ops[0]) then [] else [ops[0]]) + Uses(ops[1..])
  }

  /** The outcomes of all operations but those that manage the cache, in order. */
  ghost function Outcomes(sys: System, w: World, ops: seq<Op>): seq<Outcome>
    requires Inv(sys, w)
    decreases ops
  {
    if ops == [] then []
    else
      ApplyKeeps(sys, w, ops[0]);
      var (w', outcome) := Apply(sys, w, ops[0]);
      (if Manages(ops[0]) then [] else [outcome]) + Outcomes(sys, w', ops[1..])
  }

  ghost function SeenRunOf(sys: System, seen: Seen, ops: seq<Op>): (Seen, seq<Outcome>)
    decreases ops
  {
    if ops == [] then (seen, [])
    else
      var (seen', outcome) := SeenApply(sys, seen, ops[0]);
      var (last, outcomes) := SeenRunOf(sys, seen', ops[1..]);
      (last, [outcome] + outcomes)
  }

  /** A whole run shows what the plain machine shows when it runs the program without its cache management. */
  lemma {:induction false} RunSeen(sys: System, w: World, seen: Seen, ops: seq<Op>)
    requires Inv(sys, w) && Shows(w, seen)
    ensures Shows(Run(sys, w, ops), SeenRunOf(sys, seen, Uses(ops)).0)
    ensures Outcomes(sys, w, ops) == SeenRunOf(sys, seen, Uses(ops)).1
    decreases ops
  {
    if ops == [] {
    } else {
      var w' := Apply(sys, w, ops[0]).0;
      var seen' := SeenApply(sys, seen, ops[0]).0;
      ApplyKeeps(sys, w, ops[0]);
      ApplySeen(sys, w, seen, ops[0]);
      RunSeen(sys, w', seen', ops[1..]);
      if Manages(ops[0]) {
        assert seen' == seen && Uses(ops) == Uses(ops[1..]);
      } else {
        assert Uses(ops)[0] == ops[0] && Uses(ops)[1..] == Uses(ops[1..]);
      }
    }
  }

  /**
   Two runs of the same program, under any two cache configurations and with any cache management in
   between, show the same: same outcomes of every operation, same final view of every command, same
   database. In particular a run with the cache on shows what the run with the cache off shows.
   */
  lemma Transparency(sys: System, handle: Handle, image: Image, cfg: Config, cfg': Config, ops: seq<Op>, ops': seq<Op>)
    requires Uses(ops) == Uses(ops')
    ensures Outcomes(sys, Start(sys, handle, cfg, image), ops) == Outcomes(sys, Start(sys, handle, cfg', image), ops')
    ensures var w, w' := Run(sys, Start(sys, handle, cfg, image), ops), Run(sys, Start(sys, handle, cfg', image), ops');
            && w.session.engine.image == w'.session.engine.image
            && w.session.handle == w'.session.handle
            && w.commands.Keys == w'.commands.Keys
            && forall id :: id in w.commands ==>
                 Reads(w.session, w.commands[id]) && Reads(w'.session, w'.commands[id])
                 && Look(w.session, w.commands[id]) == Look(w'.session, w'.commands[id])
  {
    var seen := Seen(true, image, map[]);
    RunSeen(sys, Start(sys, handle, cfg, image), seen, ops);
    RunSeen(sys, Start(sys, handle, cfg', image), seen, ops');
    HandleKept(sys, Start(sys, handle, cfg, image), ops);
    HandleKept(sys, Start(sys, handle, cfg', image), ops');
  }

  lemma HandleStep(sys: System, w: World, op: Op)
    requires Inv(sys, w)
    ensures var h := Apply(sys, w, op).0.session.handle; h == None || h == w.session.handle
  {
    var held := HeldBy(w.commands);
    match op {
      case Construct(id, sql) => if id !in w.commands { PrepareKeeps(sys, w.session, held, Cmd(sql, None, 0)); }
      case On(id, action) =>
        if id in w.commands {
          assert Reads(w.session, w.commands[id]) by { assert CommandOk(sys, w.session.engine, w.commands[id]); }
          DoOnlyView(sys, w.session, w.commands[id], action);
        }
      case Destroy(id) =>
        if id in w.commands {
          HeldIsOwned(sys, w, id);
          FinalizeKeeps(sys, w.session, held, w.commands[id]);
        }
      case _ =>
    }
  }

  /** A run never replaces the handle it started with. */
  lemma {:induction false} HandleKept(sys: System, w: World, ops: seq<Op>)
    requires Inv(sys, w)
    ensures var h := Run(sys, w, ops).session.handle; h == None || h == w.session.handle
    decreases ops
  {
    if ops == [] {
    } else {
      ApplyKeeps(sys, w, ops[0]);
      HandleStep(sys, w, ops[0]);
      HandleKept(sys, Apply(sys, w, ops[0]).0, ops[1..]);
    }
  }
}
