/**
 Programs over one transaction object and nested savepoint objects. A program chooses for every statement it
 executes whether SQLite is able to carry it out, and may leave any scope early by an exception. Every object
 around a statement can be used by it, active or not and with inner ones alive or not: like the source, nothing
 checks this.
 */
module ScopePrograms {
  import opened TransactionStack

  /** `RollBackIt` and `ReleaseIt` use the savepoint object that is `up` scopes out from the innermost. */
  datatype Stmt<!C> =
    | Write(change: C -> C, able: bool)
    | Leave
    | Try(body: seq<Stmt<C>>)
    | Scope(name: string, opens: bool, body: seq<Stmt<C>>, closes: bool)
    | RollBackIt(up: nat, able: bool)
    | ReleaseIt(up: nat, able: bool)
    | BeginTx(able: bool)
    | CommitTx(able: bool)
    | RollBackTx(able: bool)

  /**
   The savepoint objects around a statement, innermost first. `saved` is the content at the object's SAVEPOINT;
   no statement reads it.
   */
  datatype Objs<C> = Outside | Inside(name: string, active: bool, saved: C, outer: Objs<C>)

  datatype World<C> = World(db: Db<C>, objs: Objs<C>, tx: Tx)

  datatype End = Normal | Threw | Terminated

  /**
   `points` are the contents made permanent on the way, in order. `strayed` says that a statement succeeded
   against the nesting of the scopes: of a savepoint object that is not the innermost active one, or a COMMIT or
   ROLLBACK while there are savepoints.
   */
  datatype Ran<C> = Ran(w: World<C>, end: End, points: seq<C>, strayed: bool)

  function Ended(done: bool): End {
    if done then Normal else Threw
  }

  /** A write outside a transaction is permanent at once. */
  function RunWrite<C>(w: World<C>, change: C -> C): Ran<C> {
    var after := w.db.(content := change(w.db.content));
    Ran(w.(db := after), Normal, if InTransaction(w.db) then [] else [after.content], false)
  }

  /** Leaving the last transaction or savepoint other than by ROLLBACK makes the content permanent. */
  function Released<C>(after: Db<C>, done: bool): seq<C> {
    if done && !InTransaction(after) then [after.content] else []
  }

  function RunStmt<C>(w: World<C>, st: Stmt<C>): Ran<C>
    decreases st
  {
    match st
    case Write(change, able) => if able then RunWrite(w, change) else Ran(w, Threw, [], false)
    case Leave => Ran(w, Threw, [], false)
    case Try(body) =>
      var r := RunBody(w, body);
      if r.end.Threw? then r.(end := Normal) else r
    case Scope(name, opens, body, closes) =>
      var (entered, created) := Exec(w.db, Savepoint(name), opens);
      if !created then Ran(w, Threw, [], false)
      else CloseScope(RunBody(World(entered, Inside(name, true, w.db.content, w.objs), w.tx), body), closes)
    case RollBackIt(up, able) => RunRollBack(w, up, able)
    case ReleaseIt(up, able) => RunRelease(w, up, able)
    case BeginTx(able) =>
      var s := TxBegin(w.db, w.tx, able);
      Ran(World(s.db, w.objs, s.tx), Ended(s.done), [], false)
    case CommitTx(able) =>
      var s := TxFinish(w.db, w.tx, Commit, able);
      Ran(World(s.db, w.objs, s.tx), Ended(s.done), Released(s.db, s.done), s.done && w.db.frames != [])
    case RollBackTx(able) =>
      var s := TxFinish(w.db, w.tx, Rollback, able);
      Ran(World(s.db, w.objs, s.tx), Ended(s.done), [], s.done && w.db.frames != [])
  }

  function RunRollBack<C>(w: World<C>, up: nat, able: bool): Ran<C> {
    var obj := Around(w.objs, up);
    if obj.Outside? then Ran(w, Normal, [], false)
    else
      var (after, done) := Exec(w.db, RollbackTo(obj.name), able);
      Ran(w.(db := after), Ended(done), [], done && !Top(w.objs, up))
  }

  function RunRelease<C>(w: World<C>, up: nat, able: bool): Ran<C> {
    var obj := Around(w.objs, up);
    if obj.Outside? then Ran(w, Normal, [], false)
    else
      var (after, done) := Exec(w.db, Release(obj.name), able);
      var objs := if done then Deactivated(w.objs, up) else w.objs;
      Ran(w.(db := after, objs := objs), Ended(done), Released(after, done), done && !Top(w.objs, up))
  }

  /** The object `up` scopes out, with those around it. */
  function Around<C>(objs: Objs<C>, up: nat): Objs<C> {
    if objs.Outside? || up == 0 then objs else Around(objs.outer, up - 1)
  }

  /** The object `up` scopes out is active, and those further in are not. */
  predicate Top<C>(objs: Objs<C>, up: nat) {
    objs.Inside? && if up == 0 then objs.active else !objs.active && Top(objs.outer, up - 1)
  }

  function Deactivated<C>(objs: Objs<C>, up: nat): Objs<C> {
    if objs.Outside? then objs
    else if up == 0 then objs.(active := false)
    else objs.(outer := Deactivated(objs.outer, up - 1))
  }

  /** The destructor of the innermost object at the end of its scope. */
  function CloseScope<C>(r: Ran<C>, closes: bool): Ran<C> {
    if r.w.objs.Outside? then r
    else
      var obj := r.w.objs;
      if r.end.Terminated? || !obj.active then r.(w := r.w.(objs := obj.outer))
      else
        var (closed, released) := Exec(r.w.db, Release(obj.name), closes);
        Ran(r.w.(db := closed, objs := obj.outer), if released then r.end else Terminated,
            r.points + Released(closed, released), r.strayed)
  }

  function RunBody<C>(w: World<C>, body: seq<Stmt<C>>): Ran<C>
    decreases body
  {
    if body == [] then Ran(w, Normal, [], false)
    else
      var first := RunStmt(w, body[0]);
      if !first.end.Normal? then first
      else
        var rest := RunBody(first.w, body[1..]);
        rest.(points := first.points + rest.points, strayed := first.strayed || rest.strayed)
  }

  /** The world on entry to a scope. */
  function Entered<C>(w: World<C>, name: string): World<C> {
    World(w.db.(frames := w.db.frames + [Frame(name, w.db.content)]), Inside(name, true, w.db.content, w.objs), w.tx)
  }

  lemma ScopeRun<C>(w: World<C>, name: string, body: seq<Stmt<C>>, closes: bool)
    ensures RunStmt(w, Scope(name, true, body, closes)) == CloseScope(RunBody(Entered(w, name), body), closes)
  {
  }

  /**
   How a scope ends: as its body did, unless the destructor's release fails, which ends the program. A `Try` turns an
   exception into normal completion and nothing else.
   */
  lemma EndLaw<C>(w: World<C>, name: string, opens: bool, body: seq<Stmt<C>>, closes: bool)
    ensures !opens ==> RunStmt(w, Scope(name, opens, body, closes)) == Ran(w, Threw, [], false)
    ensures opens ==>
              var inside, r := RunBody(Entered(w, name), body), RunStmt(w, Scope(name, opens, body, closes));
              && (r.end.Terminated? <==>
                    || inside.end.Terminated?
                    || (inside.w.objs.Inside? && inside.w.objs.active
                        && (!closes || Find(inside.w.db.frames, inside.w.objs.name) == -1)))
              && (!r.end.Terminated? ==> r.end == inside.end)
    ensures var inside, r := RunBody(w, body), RunStmt(w, Try(body));
            r.w == inside.w && r.end == if inside.end.Threw? then Normal else inside.end
  {
  }

  /** A statement that SQLite does not carry out throws and changes neither the database nor any object. */
  lemma UnableLaw<C>(w: World<C>, st: Stmt<C>)
    requires match st
             case Write(_, able) => !able
             case Scope(_, opens, _, _) => !opens
             case RollBackIt(up, able) => !able && Around(w.objs, up).Inside?
             case ReleaseIt(up, able) => !able && Around(w.objs, up).Inside?
             case BeginTx(able) => !able
             case CommitTx(able) => !able
             case RollBackTx(able) => !able
             case _ => false
    ensures var r := RunStmt(w, st);
            && r.end.Threw? && r.w.db == w.db && r.w.objs == w.objs && r.w.tx.active == w.tx.active
            && r.points == [] && !r.strayed
  {
  }

  // ----- What every program keeps -----

  /** The number of active objects. */
  function Active<C>(objs: Objs<C>): nat {
    if objs.Outside? then 0 else Active(objs.outer) + if objs.active then 1 else 0
  }

  /** The same objects, some of them released. */
  ghost predicate Weakened<C>(objs: Objs<C>, objs': Objs<C>) {
    if objs.Outside? then objs'.Outside?
    else
      && objs'.Inside? && objs'.name == objs.name && objs'.saved == objs.saved && (objs'.active ==> objs.active)
      && Weakened(objs.outer, objs'.outer)
  }

  lemma {:induction false} Weakens<C>(objs: Objs<C>, up: nat)
    ensures Weakened(objs, objs) && Weakened(objs, Deactivated(objs, up))
    ensures Active(objs) <= Active(Deactivated(objs, up)) + 1
  {
    if objs.Outside? {
    } else {
      Weakens(objs.outer, if up > 0 then up - 1 else 0);
    }
  }

  lemma {:induction false} WeakenedTwice<C>(objs: Objs<C>, objs': Objs<C>, objs'': Objs<C>)
    requires Weakened(objs, objs') && Weakened(objs', objs'')
    ensures Weakened(objs, objs'') && Active(objs'') <= Active(objs') <= Active(objs)
  {
    if objs.Outside? {
    } else {
      WeakenedTwice(objs.outer, objs'.outer, objs''.outer);
    }
  }

  /** The stack is shorter by at least one savepoint for each object released, and never longer. */
  ghost predicate Contained<C>(w: World<C>, r: Ran<C>) {
    && Weakened(w.objs, r.w.objs)
    && (!r.end.Terminated? ==> |r.w.db.frames| + Active(w.objs) <= |w.db.frames| + Active(r.w.objs))
  }

  lemma {:induction false} StmtContained<C>(w: World<C>, st: Stmt<C>)
    ensures Contained(w, RunStmt(w, st))
    decreases st
  {
    match st {
      case Try(body) => BodyContained(w, body);
      case Scope(name, opens, body, closes) =>
        Weakens(w.objs, 0);
        if opens {
          ScopeRun(w, name, body, closes);
          BodyContained(Entered(w, name), body);
          CloseContained(w, name, RunBody(Entered(w, name), body), closes);
        }
      case ReleaseIt(up, _) => Weakens(w.objs, up);
      case _ => Weakens(w.objs, 0);
    }
  }

  lemma CloseContained<C>(w: World<C>, name: string, r: Ran<C>, closes: bool)
    requires Contained(Entered(w, name), r)
    ensures Contained(w, CloseScope(r, closes))
  {
  }

  lemma {:induction false} BodyContained<C>(w: World<C>, body: seq<Stmt<C>>)
    ensures Contained(w, RunBody(w, body))
    decreases body
  {
    if body == [] {
      Weakens(w.objs, 0);
    } else {
      var first := RunStmt(w, body[0]);
      StmtContained(w, body[0]);
      if first.end.Normal? {
        BodyContained(first.w, body[1..]);
        WeakenedTwice(w.objs, first.w.objs, RunBody(first.w, body[1..]).w.objs);
      }
    }
  }

  /** The last point, or `start` if there is none. */
  function LastPoint<C>(start: C, points: seq<C>): C {
    if points == [] then start else points[|points| - 1]
  }

  /** What an exception and a rollback of everything would leave is what was last made permanent. */
  lemma {:induction false} StmtDurable<C>(w: World<C>, st: Stmt<C>)
    ensures var r := RunStmt(w, st); Durable(r.w.db) == LastPoint(Durable(w.db), r.points)
    decreases st
  {
    match st {
      case Try(body) => BodyDurable(w, body);
      case Scope(name, opens, body, closes) =>
        if opens {
          ScopeRun(w, name, body, closes);
          BodyDurable(Entered(w, name), body);
          CloseDurable(RunBody(Entered(w, name), body), closes, Durable(w.db));
        }
      case _ =>
    }
  }

  lemma CloseDurable<C>(r: Ran<C>, closes: bool, start: C)
    requires Durable(r.w.db) == LastPoint(start, r.points)
    ensures var after := CloseScope(r, closes); Durable(after.w.db) == LastPoint(start, after.points)
  {
  }

  lemma {:induction false} BodyDurable<C>(w: World<C>, body: seq<Stmt<C>>)
    ensures var r := RunBody(w, body); Durable(r.w.db) == LastPoint(Durable(w.db), r.points)
    decreases body
  {
    if body == [] {
    } else {
      var first := RunStmt(w, body[0]);
      StmtDurable(w, body[0]);
      if first.end.Normal? {
        BodyDurable(first.w, body[1..]);
      }
    }
  }

  // ----- Programs that do not stray -----

  /** The frames of the active objects. */
  function Layout<C>(objs: Objs<C>): seq<Frame<C>> {
    if objs.Outside? then [] else Layout(objs.outer) + if objs.active then [Frame(objs.name, objs.saved)] else []
  }

  /** The savepoint stack is `base` and then one frame for each active object. */
  ghost predicate Stands<C>(w: World<C>, base: seq<Frame<C>>) {
    w.db.frames == base + Layout(w.objs)
  }

  /** The same objects, released from the innermost outwards. */
  ghost predicate Unwound<C>(objs: Objs<C>, objs': Objs<C>) {
    || objs' == objs
    || (objs.Inside? && objs'.Inside? && objs'.name == objs.name && objs'.saved == objs.saved && !objs'.active
        && Unwound(objs.outer, objs'.outer))
  }

  lemma {:induction false} UnwoundTwice<C>(objs: Objs<C>, objs': Objs<C>, objs'': Objs<C>)
    requires Unwound(objs, objs') && Unwound(objs', objs'')
    ensures Unwound(objs, objs'')
  {
    if objs.Outside? || objs' == objs || objs'' == objs' {
    } else {
      UnwoundTwice(objs.outer, objs'.outer, objs''.outer);
    }
  }

  ghost predicate Balanced<C>(w: World<C>, r: Ran<C>, base: seq<Frame<C>>) {
    !r.end.Terminated? && !r.strayed ==> Unwound(w.objs, r.w.objs) && Stands(r.w, base)
  }

  lemma FindLast<C>(frames: seq<Frame<C>>, name: string, saved: C)
    ensures Find(frames + [Frame(name, saved)], name) == |frames|
  {
  }

  lemma FindBelow<C>(frames: seq<Frame<C>>, name: string, saved: C, other: string)
    requires name != other
    ensures Find(frames + [Frame(name, saved)], other) == Find(frames, other)
  {
    assert (frames + [Frame(name, saved)])[..|frames|] == frames;
  }

  /** The frame of the innermost active object is the last one, and its release leaves those of the others. */
  lemma {:induction false} TopLayout<C>(objs: Objs<C>, up: nat)
    requires Top(objs, up)
    ensures var obj := Around(objs, up);
            && obj.Inside? && obj.active && Layout(objs) == Layout(obj.outer) + [Frame(obj.name, obj.saved)]
            && Layout(Deactivated(objs, up)) == Layout(obj.outer) && Unwound(objs, Deactivated(objs, up))
  {
    if up == 0 {
    } else {
      TopLayout(objs.outer, up - 1);
    }
  }

  /** The innermost active object finds its own frame. */
  lemma OwnTop<C>(w: World<C>, base: seq<Frame<C>>, up: nat)
    requires Stands(w, base) && Top(w.objs, up)
    ensures var obj := Around(w.objs, up);
            && obj.Inside? && w.db.frames == base + Layout(obj.outer) + [Frame(obj.name, obj.saved)]
            && Find(w.db.frames, obj.name) == |base + Layout(obj.outer)|
  {
    TopLayout(w.objs, up);
    var obj := Around(w.objs, up);
    assert w.db.frames == base + Layout(obj.outer) + [Frame(obj.name, obj.saved)];
    FindLast(base + Layout(obj.outer), obj.name, obj.saved);
  }

  /** What its rollback does: back to the content at its own SAVEPOINT, with all frames kept. */
  lemma OwnRollback<C>(w: World<C>, base: seq<Frame<C>>, up: nat)
    requires Stands(w, base) && Top(w.objs, up)
    ensures var obj := Around(w.objs, up);
            obj.Inside? && Exec(w.db, RollbackTo(obj.name), true) == (Db(obj.saved, w.db.begun, w.db.frames), true)
  {
    OwnTop(w, base, up);
    assert w.db.frames[..|base + Layout(Around(w.objs, up).outer)| + 1] == w.db.frames;
  }

  /** What its release does: the content stays and its own frame goes. */
  lemma OwnRelease<C>(w: World<C>, base: seq<Frame<C>>, up: nat)
    requires Stands(w, base) && Top(w.objs, up)
    ensures var obj := Around(w.objs, up);
            && obj.Inside? && Unwound(w.objs, Deactivated(w.objs, up))
            && Exec(w.db, Release(obj.name), true) ==
               (w.db.(frames := base + Layout(Deactivated(w.objs, up))), true)
  {
    OwnTop(w, base, up);
    TopLayout(w.objs, up);
  }

  lemma UseBalanced<C>(w: World<C>, st: Stmt<C>, base: seq<Frame<C>>)
    requires (st.RollBackIt? || st.ReleaseIt?) && Stands(w, base)
    ensures Balanced(w, RunStmt(w, st), base)
  {
    if Top(w.objs, st.up) && st.RollBackIt? {
      OwnRollback(w, base, st.up);
    } else if Top(w.objs, st.up) {
      OwnRelease(w, base, st.up);
    }
  }

  /**
   Whatever a statement does and however it ends, short of ending the program or straying: the frames below the
   objects are untouched, each object's own frame is there exactly while it is active, and objects were released
   from the innermost outwards.
   */
  lemma {:induction false} StmtBalanced<C>(w: World<C>, st: Stmt<C>, base: seq<Frame<C>>)
    requires Stands(w, base)
    ensures Balanced(w, RunStmt(w, st), base)
    decreases st
  {
    match st {
      case Try(body) => BodyBalanced(w, body, base);
      case Scope(name, opens, body, closes) =>
        if opens {
          ScopeRun(w, name, body, closes);
          EnteredStands(w, name, base);
          BodyBalanced(Entered(w, name), body, base);
          CloseBalanced(w, name, RunBody(Entered(w, name), body), closes, base);
        }
      case RollBackIt(_, _) => UseBalanced(w, st, base);
      case ReleaseIt(_, _) => UseBalanced(w, st, base);
      case _ =>
    }
  }

  lemma EnteredStands<C>(w: World<C>, name: string, base: seq<Frame<C>>)
    requires Stands(w, base)
    ensures Stands(Entered(w, name), base)
  {
  }

  /** The destructor at the end of a scope pops the scope's own frame, if it is still there. */
  lemma CloseBalanced<C>(w: World<C>, name: string, r: Ran<C>, closes: bool, base: seq<Frame<C>>)
    requires Balanced(Entered(w, name), r, base)
    ensures Balanced(w, CloseScope(r, closes), base)
    ensures r.end.Normal? && !r.strayed && closes ==>
              && CloseScope(r, closes).end.Normal? && r.w.objs.Inside?
              && CloseScope(r, closes).w ==
                 World(r.w.db.(frames := base + Layout(r.w.objs.outer)), r.w.objs.outer, r.w.tx)
  {
    if !r.end.Terminated? && !r.strayed && r.w.objs.active {
      OwnRelease(r.w, base, 0);
    }
  }

  lemma {:induction false} BodyBalanced<C>(w: World<C>, body: seq<Stmt<C>>, base: seq<Frame<C>>)
    requires Stands(w, base)
    ensures Balanced(w, RunBody(w, body), base)
    decreases body
  {
    if body == [] {
    } else {
      var first := RunStmt(w, body[0]);
      StmtBalanced(w, body[0], base);
      if first.end.Normal? && !first.strayed {
        BodyBalanced(first.w, body[1..], base);
        var rest := RunBody(first.w, body[1..]);
        if !rest.end.Terminated? && !rest.strayed {
          UnwoundTwice(w.objs, first.w.objs, rest.w.objs);
        }
      }
    }
  }

  /** As long as savepoints remain and nothing strayed, no transaction was begun or ended. */
  ghost predicate KeepsTransaction<C>(w: World<C>, r: Ran<C>) {
    !r.end.Terminated? && !r.strayed && r.w.db.frames != [] ==>
      r.w.db.begun == w.db.begun && r.w.tx.active == w.tx.active
  }

  lemma {:induction false} StmtKeepsTransaction<C>(w: World<C>, st: Stmt<C>)
    ensures KeepsTransaction(w, RunStmt(w, st))
    decreases st
  {
    match st {
      case Try(body) => BodyKeepsTransaction(w, body);
      case Scope(name, opens, body, closes) =>
        if opens {
          ScopeRun(w, name, body, closes);
          BodyKeepsTransaction(Entered(w, name), body);
        }
      case _ =>
    }
  }

  lemma {:induction false} BodyKeepsTransaction<C>(w: World<C>, body: seq<Stmt<C>>)
    ensures KeepsTransaction(w, RunBody(w, body))
    decreases body
  {
    if body == [] {
    } else {
      var first := RunStmt(w, body[0]);
      StmtKeepsTransaction(w, body[0]);
      if first.end.Normal? {
        BodyKeepsTransaction(first.w, body[1..]);
        BodyContained(first.w, body[1..]);
        Weakens(first.w.objs, 0);
        WeakenedTwice(first.w.objs, first.w.objs, RunBody(first.w, body[1..]).w.objs);
      }
    }
  }

  /**
   Leaving a savepoint scope, in whatever way and names repeated or not: the stack is no deeper than on entry, and
   unless something strayed its frames are as on entry, less those of outer objects released inside.
   */
  lemma ScopeRestoresStack<C>(
      w: World<C>, base: seq<Frame<C>>, name: string, opens: bool, body: seq<Stmt<C>>, closes: bool)
    requires Stands(w, base)
    ensures var r := RunStmt(w, Scope(name, opens, body, closes));
            !r.end.Terminated? ==>
              && |r.w.db.frames| <= |w.db.frames|
              && (!r.strayed ==> Unwound(w.objs, r.w.objs) && Stands(r.w, base))
              && (!r.strayed && r.w.objs == w.objs ==> r.w.db.frames == w.db.frames)
  {
    var st := Scope(name, opens, body, closes);
    StmtContained(w, st);
    Weakens(w.objs, 0);
    WeakenedTwice(w.objs, w.objs, RunStmt(w, st).w.objs);
    StmtBalanced(w, st, base);
  }

  /** A scope that ends normally keeps the writes of its body, released early or by the destructor. */
  lemma ReleasedScope<C>(w: World<C>, base: seq<Frame<C>>, name: string, body: seq<Stmt<C>>)
    requires Stands(w, base)
    requires var r := RunBody(Entered(w, name), body); r.end.Normal? && !r.strayed
    ensures var inside := RunBody(Entered(w, name), body).w;
            var r := RunStmt(w, Scope(name, true, body, true));
            && r.end.Normal? && !r.strayed && inside.objs.Inside? && Unwound(w.objs, inside.objs.outer)
            && r.w == World(inside.db.(frames := base + Layout(inside.objs.outer)), inside.objs.outer, inside.tx)
            && (inside.objs.active ==> inside.objs.outer == w.objs && r.w.db == w.db.(content := inside.db.content))
  {
    var r := RunBody(Entered(w, name), body);
    ScopeRun(w, name, body, true);
    EnteredStands(w, name, base);
    BodyBalanced(Entered(w, name), body, base);
    CloseBalanced(w, name, r, true, base);
    BodyKeepsTransaction(Entered(w, name), body);
  }

  /** A scope that ends by rolling its own savepoint back leaves the database as it found it. */
  lemma RolledBackScope<C>(w: World<C>, base: seq<Frame<C>>, name: string, body: seq<Stmt<C>>)
    requires Stands(w, base)
    requires var r := RunBody(Entered(w, name), body);
             r.end.Normal? && !r.strayed && r.w.objs.Inside? && r.w.objs.active
    ensures var r := RunStmt(w, Scope(name, true, body + [RollBackIt(0, true)], true));
            r.w.db == w.db && r.w.objs == w.objs && r.end.Normal?
  {
    var r := RunBody(Entered(w, name), body);
    EnteredStands(w, name, base);
    BodyBalanced(Entered(w, name), body, base);
    OwnRollback(r.w, base, 0);
    RunAppend(Entered(w, name), body, RollBackIt(0, true));
    ReleasedScope(w, base, name, body + [RollBackIt(0, true)]);
  }

  lemma {:induction false} RunAppend<C>(w: World<C>, body: seq<Stmt<C>>, st: Stmt<C>)
    requires RunBody(w, body).end.Normal?
    ensures var r := RunBody(w, body);
            var last := RunStmt(r.w, st);
            var all := RunBody(w, body + [st]);
            all.w == last.w && all.end == last.end && all.strayed == (r.strayed || last.strayed)
    decreases body
  {
    if body == [] {
      assert (body + [st])[0] == st && (body + [st])[1..] == [];
    } else {
      assert (body + [st])[0] == body[0] && (body + [st])[1..] == body[1..] + [st];
      RunAppend(RunStmt(w, body[0]).w, body[1..], st);
    }
  }

  lemma BodyOfOne<C>(w: World<C>, st: Stmt<C>)
    ensures RunBody(w, [st]) == RunStmt(w, st)
  {
    var first, none := RunStmt(w, st), [st][1..];
    assert none == [] && RunBody(first.w, none) == Ran(first.w, Normal, [], false);
  }

  lemma BodyOfTwo<C>(w: World<C>, first: Stmt<C>, second: Stmt<C>)
    requires RunStmt(w, first).end.Normal?
    ensures var one := RunStmt(w, first);
            var two := RunStmt(one.w, second);
            var r := RunBody(w, [first, second]);
            r.w == two.w && r.end == two.end && r.strayed == (one.strayed || two.strayed)
  {
    BodyOfOne(w, first);
    RunAppend(w, [first], second);
    assert [first] + [second] == [first, second];
  }
}
