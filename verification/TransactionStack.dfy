/**
 SQLite's transaction and savepoint stack, and the two RAII objects that drive it. Whether SQLite is able to
 carry out a statement is a parameter, so every statement may fail at any time.
 */
module TransactionStack {
  import opened Prelude

  datatype Frame<C> = Frame(name: string, saved: C)

  /**
   `begun` is the content at BEGIN while an explicit transaction is open; `frames` are the savepoints,
   innermost last.
   */
  datatype Db<C> = Db(content: C, begun: Option<C>, frames: seq<Frame<C>>)

  datatype Sql = Begin | Commit | Rollback | Savepoint(name: string) | Release(name: string) | RollbackTo(name: string)

  /** What remains of the database if everything not committed is undone. */
  function Durable<C>(db: Db<C>): C {
    if db.begun.Some? then db.begun.value else if db.frames != [] then db.frames[0].saved else db.content
  }

  predicate InTransaction<C>(db: Db<C>) {
    db.begun.Some? || db.frames != []
  }

  /** The innermost savepoint of that name, or -1. */
  function Find<C>(frames: seq<Frame<C>>, name: string): (i: int)
    ensures -1 <= i < |frames|
    ensures i >= 0 ==> frames[i].name == name
    ensures forall j :: i < j < |frames| ==> frames[j].name != name
  {
    if frames == [] then -1
    else if frames[|frames| - 1].name == name then |frames| - 1
    else Find(frames[..|frames| - 1], name)
  }

  /** One statement: the new database and whether it succeeded; a failing statement changes nothing. */
  function Exec<C>(db: Db<C>, sql: Sql, able: bool): (Db<C>, bool) {
    if !able then (db, false)
    else match sql
      case Begin => if InTransaction(db) then (db, false) else (db.(begun := Some(db.content)), true)
      case Commit => if !InTransaction(db) then (db, false) else (Db(db.content, None, []), true)
      case Rollback => if !InTransaction(db) then (db, false) else (Db(Durable(db), None, []), true)
      case Savepoint(name) => (db.(frames := db.frames + [Frame(name, db.content)]), true)
      case Release(name) =>
        var i := Find(db.frames, name);
        if i < 0 then (db, false) else (db.(frames := db.frames[..i]), true)
      case RollbackTo(name) =>
        var i := Find(db.frames, name);
        if i < 0 then (db, false) else (Db(db.frames[i].saved, db.begun, db.frames[..i + 1]), true)
  }

  datatype Tx = Tx(active: bool, ending: bool)
  datatype TxStep<C> = TxStep(db: Db<C>, tx: Tx, done: bool)

  function TxBegin<C>(db: Db<C>, tx: Tx, able: bool): TxStep<C> {
    var (after, done) := Exec(db, Begin, able);
    TxStep(after, if done then tx.(active := true) else tx, done)
  }

  /** `commit`, `end` and `rollback`: the object stays active when the statement fails, and is never left ending. */
  function TxFinish<C>(db: Db<C>, tx: Tx, sql: Sql, able: bool): TxStep<C> {
    var (after, done) := Exec(db, sql, able);
    TxStep(after, Tx(if done then false else tx.active, false), done)
  }

  function TxDestroy<C>(db: Db<C>, tx: Tx, able: bool): Db<C> {
    if tx.ending || !tx.active then db else TxFinish(db, tx, Rollback, able).db
  }

  /** What the object's operations do to its flags, in terms of what SQLite does with their statements. */
  lemma TxLaw<C>(db: Db<C>, tx: Tx, able: bool)
    ensures var s := TxBegin(db, tx, able);
            && (s.done <==> able && db.begun.None? && db.frames == [])
            && s == (if s.done then TxStep(db.(begun := Some(db.content)), Tx(true, tx.ending), true)
                     else TxStep(db, tx, false))
    ensures var s := TxFinish(db, tx, Commit, able);
            && (s.done <==> able && (db.begun.Some? || db.frames != []))
            && s == (if s.done then TxStep(Db(db.content, None, []), Tx(false, false), true)
                     else TxStep(db, Tx(tx.active, false), false))
    ensures var s := TxFinish(db, tx, Rollback, able);
            && (s.done <==> able && (db.begun.Some? || db.frames != []))
            && s == (if s.done then TxStep(Db(Durable(db), None, []), Tx(false, false), true)
                     else TxStep(db, Tx(tx.active, false), false))
    ensures TxDestroy(db, tx, able) ==
            if tx.active && !tx.ending && able && (db.begun.Some? || db.frames != []) then Db(Durable(db), None, [])
            else db
  {
  }

  class Database<C> {
    var db: Db<C>

    constructor (content: C)
      ensures db == Db(content, None, [])
    {
      db := Db(content, None, []);
    }

    method Execute(sql: Sql, able: bool) returns (done: bool)
      modifies this
      ensures (db, done) == Exec(old(db), sql, able)
    {
      var r := Exec(db, sql, able);
      db, done := r.0, r.1;
    }
  }

  class Transaction<C> {
    const con: Database<C>
    var isActive: bool
    var isEnding: bool

    ghost function Abs(): Tx
      reads this
    {
      Tx(isActive, isEnding)
    }

    constructor (con: Database<C>)
      ensures this.con == con && Abs() == Tx(false, false)
    {
      this.con, isActive, isEnding := con, false, false;
    }

    method Start(able: bool) returns (done: bool)
      modifies this, con
      ensures TxStep(con.db, Abs(), done) == old(TxBegin(con.db, Abs(), able))
    {
      done := con.Execute(Begin, able);
      if done {
        isActive := true;
      }
    }

    /** `commit`, `end` or `rollback`, by the statement they execute under the ending guard. */
    method Finish(sql: Sql, able: bool) returns (done: bool)
      requires sql == Commit || sql == Rollback
      modifies this, con
      ensures TxStep(con.db, Abs(), done) == old(TxFinish(con.db, Abs(), sql, able))
    {
      isEnding := true;
      done := con.Execute(sql, able);
      if done {
        isActive := false;
      }
      isEnding := false;
    }

    /** The destructor: rolls back what is still active and swallows a failure. */
    method Destroy(able: bool)
      modifies this, con
      ensures con.db == old(TxDestroy(con.db, Abs(), able))
    {
      if isEnding {
        return;
      }
      if isActive {
        var _ := Finish(Rollback, able);
      }
    }
  }

  class SavepointScope<C> {
    const con: Database<C>
    const name: string
    var isActive: bool

    /** The constructor after its SAVEPOINT succeeded. */
    constructor (con: Database<C>, name: string)
      ensures this.con == con && this.name == name && isActive
    {
      this.con, this.name, isActive := con, name, true;
    }

    /** The whole constructor: no object when SAVEPOINT fails. */
    static method Open(con: Database<C>, name: string, able: bool) returns (sp: SavepointScope?<C>)
      modifies con
      ensures (con.db, sp != null) == Exec(old(con.db), Savepoint(name), able)
      ensures sp != null ==> fresh(sp) && sp.con == con && sp.name == name && sp.isActive
    {
      var done := con.Execute(Savepoint(name), able);
      if !done {
        return null;
      }
      sp := new SavepointScope<C>(con, name);
    }

    method ReleaseIt(able: bool) returns (done: bool)
      modifies this, con
      ensures (con.db, done) == Exec(old(con.db), Release(name), able)
      ensures isActive == (old(isActive) && !done)
    {
      done := con.Execute(Release(name), able);
      if done {
        isActive := false;
      }
    }

    method RollBack(able: bool) returns (done: bool)
      modifies con
      ensures (con.db, done) == Exec(old(con.db), RollbackTo(name), able)
    {
      done := con.Execute(RollbackTo(name), able);
    }

    /** The destructor does not throw: a failing release ends the program. */
    method Destroy(able: bool) returns (terminated: bool)
      modifies this, con
      ensures !old(isActive) ==> con.db == old(con.db) && !terminated
      ensures old(isActive) ==> (con.db, !terminated) == Exec(old(con.db), Release(name), able)
    {
      terminated := false;
      if isActive {
        var done := ReleaseIt(able);
        terminated := !done;
      }
    }
  }
}
