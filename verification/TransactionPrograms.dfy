/**
 The life of a transaction object around any program with nested savepoints: constructed, committed, ended, rolled
 back or begun again any number of times, inside savepoint scopes or not, with any statement failing, and destroyed
 at the end or by an exception.
 */
module TransactionPrograms {
  import opened Prelude
  import opened TransactionStack
  import opened ScopePrograms

  /** Its constructor begins; its destructor rolls back what is still active. */
  function Lifetime<C>(db: Db<C>, objs: Objs<C>, begins: bool, body: seq<Stmt<C>>, rollsBack: bool): Ran<C> {
    var s := TxBegin(db, Tx(false, false), begins);
    if !s.done then Ran(World(s.db, objs, s.tx), Threw, [], false)
    else
      var r := RunBody(World(s.db, objs, s.tx), body);
      if r.end.Terminated? then r else r.(w := r.w.(db := TxDestroy(r.w.db, r.w.tx, rollsBack)))
  }

  /** The object knows whether a transaction is open. */
  ghost predicate Lone<C>(w: World<C>) {
    !w.tx.ending && (w.tx.active <==> w.db.begun.Some?)
  }

  lemma {:induction false} StmtLone<C>(w: World<C>, st: Stmt<C>)
    requires Lone(w)
    ensures Lone(RunStmt(w, st).w)
    decreases st
  {
    match st {
      case Try(body) => TxLone(w, body);
      case Scope(name, opens, body, closes) =>
        if opens {
          ScopeRun(w, name, body, closes);
          TxLone(Entered(w, name), body);
        }
      case _ =>
    }
  }

  lemma {:induction false} TxLone<C>(w: World<C>, body: seq<Stmt<C>>)
    requires Lone(w)
    ensures Lone(RunBody(w, body).w)
    decreases body
  {
    if body == [] {
    } else {
      StmtLone(w, body[0]);
      if RunStmt(w, body[0]).end.Normal? {
        TxLone(RunStmt(w, body[0]).w, body[1..]);
      }
    }
  }

  /**
   Whatever the body does, however it ends and whatever fails: only what was last made permanent survives. If
   the destructor's rollback succeeds, or has nothing to do, the connection is back in autocommit mode with
   exactly that content; the ending flag never keeps the destructor from acting. On a connection that is
   inside a transaction or savepoint already there is no object, and nothing changes.
   */
  lemma Atomicity<C>(db: Db<C>, objs: Objs<C>, begins: bool, body: seq<Stmt<C>>, rollsBack: bool)
    ensures var r := Lifetime(db, objs, begins, body, rollsBack);
            && Durable(r.w.db) == LastPoint(Durable(db), r.points)
            && !r.w.tx.ending
            && (InTransaction(db) || !begins ==> r.end.Threw? && r.w.db == db && r.points == [])
            && (!InTransaction(db) && !r.end.Terminated? && (rollsBack || !r.w.tx.active) ==>
                  r.w.db == Db(LastPoint(db.content, r.points), None, []))
  {
    var s := TxBegin(db, Tx(false, false), begins);
    if s.done {
      var w := World(s.db, objs, s.tx);
      TxLone(w, body);
      BodyDurable(w, body);
      NoFramesLeft(w, body);
    }
  }

  /** Where no savepoints were, a program leaves none. */
  lemma NoFramesLeft<C>(w: World<C>, body: seq<Stmt<C>>)
    requires w.db.frames == []
    ensures var r := RunBody(w, body); !r.end.Terminated? ==> r.w.db.frames == []
  {
    BodyContained(w, body);
    Weakens(w.objs, 0);
    WeakenedTwice(w.objs, w.objs, RunBody(w, body).w.objs);
  }

  // ----- Bodies that leave the transaction alone -----

  predicate Plain<C>(st: Stmt<C>)
    decreases st
  {
    match st
    case Try(body) => PlainBody(body)
    case Scope(_, _, body, _) => PlainBody(body)
    case _ => !st.BeginTx? && !st.CommitTx? && !st.RollBackTx?
  }

  predicate PlainBody<C>(body: seq<Stmt<C>>)
    decreases body
  {
    body == [] || (Plain(body[0]) && PlainBody(body[1..]))
  }

  ghost predicate SameTransaction<C>(w: World<C>, w': World<C>) {
    w'.db.begun == w.db.begun && w'.tx == w.tx
  }

  lemma {:induction false} PlainKeeps<C>(w: World<C>, st: Stmt<C>)
    requires Plain(st)
    ensures SameTransaction(w, RunStmt(w, st).w)
    decreases st
  {
    match st {
      case Try(body) => PlainBodyKeeps(w, body);
      case Scope(name, opens, body, closes) =>
        if opens {
          ScopeRun(w, name, body, closes);
          PlainBodyKeeps(Entered(w, name), body);
        }
      case _ =>
    }
  }

  lemma {:induction false} PlainBodyKeeps<C>(w: World<C>, body: seq<Stmt<C>>)
    requires PlainBody(body)
    ensures SameTransaction(w, RunBody(w, body).w)
    decreases body
  {
    if body == [] {
    } else {
      PlainKeeps(w, body[0]);
      if RunStmt(w, body[0]).end.Normal? {
        PlainBodyKeeps(RunStmt(w, body[0]).w, body[1..]);
      }
    }
  }

  /**
   The usual shape, `{ transaction t(con); body; t.commit(); }`: the database ends with the body's result if
   the body ran through and the commit succeeded, and otherwise as it was at the start. It does not matter
   where an exception left the body, nor which savepoints it rolled back or released on the way.
   */
  lemma AllOrNothing<C>(db: Db<C>, objs: Objs<C>, body: seq<Stmt<C>>, commits: bool)
    requires !InTransaction(db) && PlainBody(body)
    ensures var inside := RunBody(World(db.(begun := Some(db.content)), objs, Tx(true, false)), body);
            var r := Lifetime(db, objs, true, body + [CommitTx(commits)], true);
            (r.end.Terminated? <==> inside.end.Terminated?) &&
            (!r.end.Terminated? ==>
               r.w.db == Db(if inside.end.Normal? && commits then inside.w.db.content else db.content, None, []))
  {
    var w := World(db.(begun := Some(db.content)), objs, Tx(true, false));
    var inside := RunBody(w, body);
    PlainBodyKeeps(w, body);
    NoFramesLeft(w, body);
    if inside.end.Normal? {
      RunAppend(w, body, CommitTx(commits));
    } else {
      RunPrefix(w, body, CommitTx(commits));
    }
  }

  /** What follows a body that does not end normally is not run. */
  lemma {:induction false} RunPrefix<C>(w: World<C>, body: seq<Stmt<C>>, st: Stmt<C>)
    requires !RunBody(w, body).end.Normal?
    ensures RunBody(w, body + [st]) == RunBody(w, body)
    decreases body
  {
    assert (body + [st])[0] == body[0] && (body + [st])[1..] == body[1..] + [st];
    if RunStmt(w, body[0]).end.Normal? {
      RunPrefix(RunStmt(w, body[0]).w, body[1..], st);
    }
  }
}
