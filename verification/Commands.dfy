/**
 Commands and connections over the statement cache. `Session` is a connection: its handle, its cache and
 the statement table behind it. Each operation is given as a function of the session and the command; the
 classes `Connection` and `Command` do the same in place.
 */
module Commands {
  import opened Prelude
  import opened SqliteStatements
  import opened StatementCache
  import opened SchemaKeywords

  /** How an operation ends: normally, with or without a row, or by the exception it throws. */
  datatype Outcome =
    | Completed | HasRow(row: bool)
    | NotOpen | NotPrepared | Misused(code: int) | Errored(code: int) | Busy | Ignored

  datatype Cmd = Cmd(sql: string, stmt: Option<StmtId>, lastArg: int)

  datatype Ran = Ran(session: Session, cmd: Cmd, outcome: Outcome)
  datatype Closed = Closed(session: Session, outcome: Outcome)

  datatype Session = Session(handle: Option<Handle>, cache: Cache, engine: Engine)
  {
    ghost predicate Sound() {
      cache.WellFormed() && cache.Backed(engine) && engine.Conserved()
    }

    /** A statement in use is alive and not cached. */
    ghost predicate Owned(stmt: Option<StmtId>) {
      stmt.Some? ==> stmt.value in engine.stmts && stmt.value !in Stmts(cache.lru)
    }

    /** The id of the next statement is in nobody's hands. */
    lemma NextIsFresh()
      requires Sound()
      ensures engine.next !in engine.stmts && engine.next !in Stmts(cache.lru)
    {
    }

    ghost function Clear(): Session
      requires Sound()
    {
      var c := cache.Clear(engine);
      Session(handle, c.cache, c.engine)
    }

    ghost function Configure(cfg: Config): Session
      requires Sound()
    {
      var c := cache.Reconfigure(engine, cfg);
      Session(handle, c.cache, c.engine)
    }

    ghost function AcquireCached(sql: string): (Session, Option<StmtId>)
      requires Sound()
    {
      if handle.None? then (this, None)
      else
        var a := cache.Acquire(engine, handle.value, sql);
        (Session(handle, a.cache, a.engine), a.stmt)
    }

    ghost function ReleaseCached(sql: string, stmt: StmtId): Session
      requires Sound() && Owned(Some(stmt))
    {
      if handle.None? then this.(engine := engine.Finalize(stmt))
      else
        var c := cache.Release(engine, sql, stmt);
        Session(handle, c.cache, c.engine)
    }

    /** The exception an operation on `cmd` throws before it touches the statement, or `Completed`. */
    function Access(cmd: Cmd): Outcome {
      if handle.None? then NotOpen else if cmd.stmt.None? then NotPrepared else Completed
    }

    ghost function Finalize(cmd: Cmd): Ran
      requires Sound() && Owned(cmd.stmt)
    {
      if Access(cmd) != Completed then Ran(this, cmd, Access(cmd))
      else
        var s := if IsSchemaChanging(cmd.sql) then this.(engine := engine.Finalize(cmd.stmt.value))
                 else ReleaseCached(cmd.sql, cmd.stmt.value);
        Ran(s, cmd.(stmt := None), Completed)
    }

    /** Compiles the text of a command whose cache lookup found nothing. */
    ghost function Compile(sys: System, cmd: Cmd): Ran
      requires handle.Some?
    {
      match sys.compile(cmd.sql)
      case Program =>
        Ran(this.(engine := engine.Prepare(cmd.sql, handle.value)), cmd.(stmt := Some(engine.next)), Completed)
      case NoProgram => Ran(this, cmd.(stmt := None), Completed)
      case Rejected(code) => Ran(this, cmd.(stmt := None), Errored(code))
    }

    /** `prepare` of a command that holds no statement yet, as its constructor calls it. */
    ghost function Prepare(sys: System, cmd: Cmd): Ran
      requires Sound() && cmd.stmt.None?
    {
      if handle.None? then Ran(this, cmd, NotOpen)
      else if IsSchemaChanging(cmd.sql) then
        Clear().Compile(sys, cmd)
      else
        var (s, hit) := AcquireCached(cmd.sql);
        if hit.Some? then Ran(s, cmd.(stmt := hit), Completed) else s.Compile(sys, cmd)
    }

    function Bind(sys: System, cmd: Cmd, idx: int, v: Value): Ran
      requires cmd.stmt.Some? ==> cmd.stmt.value in engine.stmts
    {
      if Access(cmd) != Completed then Ran(this, cmd, Access(cmd))
      else
        var (e, code) := engine.Bind(sys, cmd.stmt.value, idx, v);
        Ran(this.(engine := e), cmd, if code == 0 then Completed else Errored(code))
    }

    /** `operator%`: the position advances even when the binding fails. */
    function BindNext(sys: System, cmd: Cmd, v: Value): Ran
      requires cmd.stmt.Some? ==> cmd.stmt.value in engine.stmts
    {
      Bind(sys, cmd.(lastArg := cmd.lastArg + 1), cmd.lastArg + 1, v)
    }

    function BindAll(sys: System, cmd: Cmd, args: seq<Value>): (r: Ran)
      requires cmd.stmt.Some? ==> cmd.stmt.value in engine.stmts
      ensures r.cmd.stmt == cmd.stmt && r.session.engine.stmts.Keys == engine.stmts.Keys
      decreases args
    {
      if args == [] then Ran(this, cmd, Completed)
      else
        var r := BindNext(sys, cmd, args[0]);
        if r.outcome == Completed then r.session.BindAll(sys, r.cmd, args[1..]) else r
    }

    function Step(sys: System, cmd: Cmd): Ran
      requires cmd.stmt.Some? ==> cmd.stmt.value in engine.stmts
    {
      if Access(cmd) != Completed then Ran(this, cmd, Access(cmd))
      else
        var (e, code) := engine.Step(sys, cmd.stmt.value);
        Ran(this.(engine := e), cmd, StepOutcome(code))
    }

    function Rewind(cmd: Cmd): Session
      requires cmd.stmt.Some? ==> cmd.stmt.value in engine.stmts
    {
      if cmd.stmt.None? then this else this.(engine := engine.Reset(cmd.stmt.value))
    }

    /** `operator()`: with arguments it rewinds, binds them and steps; the position restarts only if nothing threw. */
    function Call(sys: System, cmd: Cmd, args: seq<Value>): Ran
      requires cmd.stmt.Some? ==> cmd.stmt.value in engine.stmts
    {
      var bound := if args == [] then Ran(this, cmd, Completed) else Rewind(cmd).BindAll(sys, cmd, args);
      if bound.outcome != Completed then bound
      else
        var r := bound.session.Step(sys, bound.cmd);
        if r.outcome.HasRow? then r.(cmd := r.cmd.(lastArg := 0)) else r
    }

    /** `close`: the cache is emptied first; SQLite refuses while a statement of the handle is alive. */
    ghost function Close(): Closed
      requires Sound()
    {
      if handle.None? then Closed(this, NotOpen)
      else
        var s := Clear();
        if exists st :: st in s.engine.stmts && s.engine.stmts[st].owner == handle.value then Closed(s, Busy)
        else Closed(s.(handle := None), Completed)
    }
  }

  function StepOutcome(code: StepCode): Outcome {
    match code
    case Row => HasRow(true)
    case Done => HasRow(false)
    case Misuse(c) => Misused(c)
    case Failed(c) => Errored(c)
  }

  class Connection {
    const sqlite: Sqlite
    const cache: StatementCache
    var handle: Option<Handle>

    ghost function Abs(): Session
      reads this, cache, sqlite
    {
      Session(handle, cache.Abs(), sqlite.engine)
    }

    ghost predicate Valid()
      reads this, cache, sqlite
    {
      cache.sqlite == sqlite && cache.Valid() && sqlite.engine.Conserved()
    }

    /** `open_with_flags` after a successful `sqlite3_open_v2`. */
    constructor (sqlite: Sqlite, handle: Handle)
      requires sqlite.engine.Conserved()
      ensures Valid() && this.sqlite == sqlite && fresh(cache)
      ensures Abs() == Session(Some(handle), Cache(Config(32, true), []), sqlite.engine)
    {
      this.sqlite := sqlite;
      this.handle := Some(handle);
      cache := new StatementCache(sqlite, Config(32, true));
    }

    method AcquireCachedStatement(sql: string) returns (stmt: Option<StmtId>)
      requires Valid()
      modifies cache, sqlite
      ensures Valid()
      ensures (Abs(), stmt) == old(Abs().AcquireCached(sql))
    {
      if handle.None? {
        return None;
      }
      cache.Abs().Conserves(sqlite.engine, handle.value, sql, 0, cache.config);
      stmt := cache.Acquire(handle.value, sql);
    }

    method ReleaseCachedStatement(sql: string, stmt: StmtId)
      requires Valid() && Abs().Owned(Some(stmt))
      modifies cache, sqlite
      ensures Valid()
      ensures Abs() == old(Abs().ReleaseCached(sql, stmt))
    {
      sqlite.engine.FinalizeConserves(stmt);
      cache.Abs().FinalizeOther(sqlite.engine, stmt);
      if handle.None? {
        sqlite.Finalize(stmt);
        return;
      }
      cache.Abs().Conserves(sqlite.engine, handle.value, sql, stmt, cache.config);
      cache.Release(sql, Some(stmt));
    }

    method ClearStatementCache()
      requires Valid()
      modifies cache, sqlite
      ensures Valid() && Abs() == old(Abs().Clear())
    {
      cache.Abs().Conserves(sqlite.engine, 0, "", 0, cache.config);
      cache.Clear();
    }

    method ConfigureStatementCache(cfg: Config)
      requires Valid()
      modifies cache, sqlite
      ensures Valid() && Abs() == old(Abs().Configure(cfg))
    {
      cache.Abs().Conserves(sqlite.engine, 0, "", 0, cfg);
      cache.Reset(cfg);
    }

    method Close() returns (outcome: Outcome)
      requires Valid()
      modifies this, cache, sqlite
      ensures Valid() && Closed(Abs(), outcome) == old(Abs().Close())
    {
      if handle.None? {
        return NotOpen;
      }
      ClearStatementCache();
      if exists st | st in sqlite.engine.stmts.Keys :: sqlite.engine.stmts[st].owner == handle.value {
        return Busy;
      }
      handle := None;
      outcome := Completed;
    }
  }

  class Command {
    const con: Connection
    const sql: string
    var stmt: Option<StmtId>
    var lastArg: int

    ghost function Abs(): Cmd
      reads this
    {
      Cmd(sql, stmt, lastArg)
    }

    ghost predicate Valid()
      reads this, con, con.cache, con.sqlite
    {
      con.Valid() && con.Abs().Owned(stmt)
    }

    constructor (con: Connection, sql: string)
      requires con.Valid()
      ensures Valid() && this.con == con && Abs() == Cmd(sql, None, 0)
    {
      this.con, this.sql, stmt, lastArg := con, sql, None, 0;
    }

    /** `prepare`, the rest of the constructor. */
    method Prepare() returns (outcome: Outcome)
      requires Valid() && stmt.None?
      modifies this, con.cache, con.sqlite
      ensures Valid() && Ran(con.Abs(), Abs(), outcome) == old(con.Abs().Prepare(con.sqlite.sys, Abs()))
    {
      if con.handle.None? {
        return NotOpen;
      }
      var schemaChange := IsSchemaChanging(sql);
      if schemaChange {
        con.ClearStatementCache();
      } else {
        con.Abs().cache.AcquireKeeps(con.sqlite.engine, con.handle.value, sql);
        stmt := con.AcquireCachedStatement(sql);
        if stmt.Some? {
          return Completed;
        }
      }
      outcome := Compile();
    }

    /** The call of `sqlite3_prepare_v2` at the end of `prepare`. */
    method Compile() returns (outcome: Outcome)
      requires Valid() && stmt.None? && con.handle.Some?
      modifies this, con.sqlite
      ensures Valid() && Ran(con.Abs(), Abs(), outcome) == old(con.Abs().Compile(con.sqlite.sys, Abs()))
    {
      match con.sqlite.sys.compile(sql) {
        case Program =>
          con.Abs().NextIsFresh();
          var s := con.sqlite.Prepare(sql, con.handle.value);
          stmt := Some(s);
          outcome := Completed;
        case NoProgram => outcome := Completed;
        case Rejected(code) => outcome := Errored(code);
      }
    }

    /** `finalize`, which the destructor calls. */
    method Finalize() returns (outcome: Outcome)
      requires Valid()
      modifies this, con.cache, con.sqlite
      ensures Valid() && Ran(con.Abs(), Abs(), outcome) == old(con.Abs().Finalize(Abs()))
    {
      outcome := AccessCheck();
      if outcome != Completed {
        return;
      }
      if IsSchemaChanging(sql) {
        con.sqlite.engine.FinalizeConserves(stmt.value);
        con.cache.Abs().FinalizeOther(con.sqlite.engine, stmt.value);
        con.sqlite.Finalize(stmt.value);
      } else {
        con.ReleaseCachedStatement(sql, stmt.value);
      }
      stmt := None;
    }

    method AccessCheck() returns (outcome: Outcome)
      ensures outcome == con.Abs().Access(Abs())
    {
      outcome := if con.handle.None? then NotOpen else if stmt.None? then NotPrepared else Completed;
    }

    method Bind(idx: int, v: Value) returns (outcome: Outcome)
      requires Valid()
      modifies con.sqlite
      ensures Valid() && Ran(con.Abs(), Abs(), outcome) == old(con.Abs().Bind(con.sqlite.sys, Abs(), idx, v))
    {
      outcome := AccessCheck();
      if outcome == Completed {
        var code := con.sqlite.Bind(stmt.value, idx, v);
        if code != 0 {
          outcome := Errored(code);
        }
      }
    }

    /** `operator%`. */
    method BindNext(v: Value) returns (outcome: Outcome)
      requires Valid()
      modifies this, con.sqlite
      ensures Valid() && Ran(con.Abs(), Abs(), outcome) == old(con.Abs().BindNext(con.sqlite.sys, Abs(), v))
    {
      lastArg := lastArg + 1;
      outcome := Bind(lastArg, v);
    }

    method Step() returns (outcome: Outcome)
      requires Valid()
      modifies con.sqlite
      ensures Valid() && Ran(con.Abs(), Abs(), outcome) == old(con.Abs().Step(con.sqlite.sys, Abs()))
    {
      outcome := AccessCheck();
      if outcome == Completed {
        var code := con.sqlite.Step(stmt.value);
        outcome := StepOutcome(code);
      }
    }

    method ResetStatement()
      requires Valid()
      modifies con.sqlite
      ensures Valid() && con.Abs() == old(con.Abs().Rewind(Abs()))
    {
      if stmt.Some? {
        con.sqlite.Reset(stmt.value);
      }
    }

    method Clear()
      requires Valid()
      modifies this, con.sqlite
      ensures Valid() && Abs() == old(Abs()).(lastArg := 0)
      ensures con.Abs() == old(con.Abs().Rewind(Abs()))
    {
      ResetStatement();
      lastArg := 0;
      ResetStatement();
    }

    /** `operator()` with any number of arguments. */
    method Call(args: seq<Value>) returns (outcome: Outcome)
      requires Valid()
      modifies this, con.sqlite
      ensures Valid() && Ran(con.Abs(), Abs(), outcome) == old(con.Abs().Call(con.sqlite.sys, Abs(), args))
    {
      ghost var sys := con.sqlite.sys;
      outcome := Completed;
      if args != [] {
        ResetStatement();
        ghost var bound := con.Abs().BindAll(sys, Abs(), args);
        var i := 0;
        while i < |args| && outcome == Completed
          invariant Valid() && i <= |args|
          invariant bound == if outcome == Completed then con.Abs().BindAll(sys, Abs(), args[i..])
                             else Ran(con.Abs(), Abs(), outcome)
        {
          assert args[i..][0] == args[i] && args[i..][1..] == args[i + 1..];
          outcome := BindNext(args[i]);
          i := i + 1;
        }
      }
      if outcome == Completed {
        outcome := Step();
        if outcome.HasRow? {
          lastArg := 0;
        }
      }
    }
  }
}
