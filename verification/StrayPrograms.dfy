/**
 Programs that use savepoint and transaction objects against the nesting of their scopes: which savepoint such a
 use reaches, what becomes of the scopes, and a discipline that rules it out.
 */
module StrayPrograms {
  import opened TransactionStack
  import opened ScopePrograms

  // ----- Which savepoint a name reaches -----

  /** The innermost active object of that name, with those around it. */
  function Finds<C>(objs: Objs<C>, name: string): Objs<C> {
    if objs.Outside? || (objs.active && objs.name == name) then objs else Finds(objs.outer, name)
  }

  /** A name reaches the savepoint of the innermost active object that bears it, or one below all objects. */
  lemma {:induction false} NameReaches<C>(objs: Objs<C>, base: seq<Frame<C>>, name: string)
    ensures var f := Finds(objs, name);
            Find(base + Layout(objs), name) == if f.Inside? then |base + Layout(f.outer)| else Find(base, name)
  {
    if objs.Outside? {
      assert base + Layout(objs) == base;
    } else if !objs.active {
      assert Layout(objs) == Layout(objs.outer);
      NameReaches(objs.outer, base, name);
    } else {
      var below := base + Layout(objs.outer);
      assert base + Layout(objs) == below + [Frame(objs.name, objs.saved)];
      if objs.name == name {
        FindLast(below, name, objs.saved);
      } else {
        FindBelow(below, objs.name, objs.saved, name);
        NameReaches(objs.outer, base, name);
      }
    }
  }

  /** None of the `up` innermost objects is active and has that name. */
  predicate NoneWithin<C>(objs: Objs<C>, up: nat, name: string) {
    objs.Outside? || up == 0 || (!(objs.active && objs.name == name) && NoneWithin(objs.outer, up - 1, name))
  }

  lemma {:induction false} FindsWithin<C>(objs: Objs<C>, up: nat)
    requires Around(objs, up).Inside? && Around(objs, up).active
    ensures var obj := Around(objs, up);
            var f := Finds(objs, obj.name);
            && f.Inside? && |Layout(f.outer)| >= |Layout(obj.outer)|
            && (NoneWithin(objs, up, obj.name) ==> f == obj)
            && (!NoneWithin(objs, up, obj.name) ==> |Layout(f.outer)| > |Layout(obj.outer)|)
  {
    if up == 0 {
    } else if objs.active && objs.name == Around(objs, up).name {
      LayoutAround(objs.outer, up - 1);
    } else {
      FindsWithin(objs.outer, up - 1);
    }
  }

  /** The own frame of an active object is where the frames of those around it end. */
  lemma {:induction false} LayoutAround<C>(objs: Objs<C>, up: nat)
    requires Around(objs, up).Inside? && Around(objs, up).active
    ensures var obj := Around(objs, up);
            Layout(obj.outer) + [Frame(obj.name, obj.saved)] <= Layout(objs)
  {
    if up == 0 {
    } else {
      LayoutAround(objs.outer, up - 1);
    }
  }

  /**
   The statements of an object, however far out, reach its own frame if and only if it is active and no active object
   further in has its name. Those of a released object reach the innermost active object of its name, or else a
   savepoint below all objects, or fail if there is none.
   */
  lemma UnguardedUse<C>(w: World<C>, base: seq<Frame<C>>, up: nat)
    requires Stands(w, base) && Around(w.objs, up).Inside?
    ensures var obj := Around(w.objs, up);
            var f := Finds(w.objs, obj.name);
            && (obj.active ==>
                  (Find(w.db.frames, obj.name) == |base + Layout(obj.outer)| <==> NoneWithin(w.objs, up, obj.name)))
            && (f.Inside? ==> Find(w.db.frames, obj.name) == |base + Layout(f.outer)|)
            && (f.Outside? ==> !obj.active && Find(w.db.frames, obj.name) == Find(base, obj.name))
            && (f.Outside? && Find(base, obj.name) == -1 ==>
                  !Exec(w.db, RollbackTo(obj.name), true).1 && !Exec(w.db, Release(obj.name), true).1)
  {
    NameReaches(w.objs, base, Around(w.objs, up).name);
    if Around(w.objs, up).active {
      FindsWithin(w.objs, up);
    }
  }

  // ----- What becomes of the scopes -----

  /** An inner scope that is released and then rolled back undoes the writes of an outer one of the same name. */
  lemma StrayRollback<C>(w: World<C>, base: seq<Frame<C>>, name: string, change: C -> C)
    requires Stands(w, base)
    ensures var inner := Scope(name, true, [ReleaseIt(0, true), RollBackIt(0, true)], true);
            var r := RunStmt(w, Scope(name, true, [Write(change, true), inner], true));
            r.w == w && r.end.Normal? && r.strayed
  {
    var inner := Scope(name, true, [ReleaseIt(0, true), RollBackIt(0, true)], true);
    var entered := Entered(w, name);
    var written := RunStmt(entered, Write(change, true)).w;
    EnteredStands(w, name, base);
    UsedAfterRelease(written, base, name, RollBackIt(0, true));
    BodyOfTwo(entered, Write(change, true), inner);
    ScopeRun(w, name, [Write(change, true), inner], true);
    OwnRelease(entered, base, 0);
  }

  /**
   An inner scope that is released twice takes the savepoint of an outer one of the same name, whose
   destructor then ends the program exactly if no savepoint further out has the name too.
   */
  lemma StrayRelease<C>(w: World<C>, base: seq<Frame<C>>, name: string)
    requires Stands(w, base)
    ensures var inner := Scope(name, true, [ReleaseIt(0, true), ReleaseIt(0, true)], true);
            var r := RunStmt(w, Scope(name, true, [inner], true));
            (r.end.Terminated? <==> Find(w.db.frames, name) == -1) && r.strayed
  {
    var inner: Stmt<C> := Scope(name, true, [ReleaseIt(0, true), ReleaseIt(0, true)], true);
    EnteredStands(w, name, base);
    UsedAfterRelease(Entered(w, name), base, name, ReleaseIt(0, true));
    CloseEnds(w, name, inner);
  }

  /** The destructor at the end of a scope of one statement ends the program exactly if its savepoint is gone. */
  lemma CloseEnds<C>(w: World<C>, name: string, st: Stmt<C>)
    requires var r := RunStmt(Entered(w, name), st);
             !r.end.Terminated? && r.w.objs.Inside? && r.w.objs.active && r.w.objs.name == name
    ensures var inside := RunStmt(Entered(w, name), st);
            var r := RunStmt(w, Scope(name, true, [st], true));
            (r.end.Terminated? <==> Find(inside.w.db.frames, name) == -1) && r.strayed == inside.strayed
  {
    BodyOfOne(Entered(w, name), st);
    ScopeRun(w, name, [st], true);
  }

  /** A scope released before `use`, inside an active object of the same name. */
  lemma UsedAfterRelease<C>(w: World<C>, base: seq<Frame<C>>, name: string, use: Stmt<C>)
    requires Stands(w, base) && w.objs.Inside? && w.objs.active && w.objs.name == name
    requires use == RollBackIt(0, true) || use == ReleaseIt(0, true)
    ensures var r := RunStmt(w, Scope(name, true, [ReleaseIt(0, true), use], true));
            && r.end.Normal? && r.strayed
            && r.w == w.(db := if use.RollBackIt? then w.db.(content := w.objs.saved)
                               else w.db.(frames := base + Layout(w.objs.outer)))
  {
    var entered := Entered(w, name);
    var released := w.(objs := entered.objs.(active := false));
    EnteredStands(w, name, base);
    OwnRelease(entered, base, 0);
    assert RunStmt(entered, ReleaseIt(0, true)).w == released;
    SecondUse(released, base, use);
    BodyOfTwo(entered, ReleaseIt(0, true), use);
    ScopeRun(w, name, [ReleaseIt(0, true), use], true);
  }

  /** The use of a released object inside an active one of the same name. */
  lemma SecondUse<C>(w: World<C>, base: seq<Frame<C>>, use: Stmt<C>)
    requires Stands(w, base) && w.objs.Inside? && !w.objs.active
    requires w.objs.outer.Inside? && w.objs.outer.active && w.objs.outer.name == w.objs.name
    requires use == RollBackIt(0, true) || use == ReleaseIt(0, true)
    ensures var r := RunStmt(w, use);
            && r.end.Normal? && r.strayed
            && r.w == w.(db := if use.RollBackIt? then w.db.(content := w.objs.outer.saved)
                               else w.db.(frames := base + Layout(w.objs.outer.outer)))
  {
    assert Around(w.objs, 1) == Around(w.objs.outer, 0) == w.objs.outer;
    assert Top(w.objs, 1) == Top(w.objs.outer, 0);
    assert Deactivated(w.objs, 1) == w.objs.(outer := Deactivated(w.objs.outer, 0));
    OwnRollback(w, base, 1);
    OwnRelease(w, base, 1);
  }

  /**
   Using an active object from inside a further scope, while that is active, takes the savepoint of that scope. Its
   destructor then ends the program exactly if the names differ and no savepoint further out has the scope's name.
   */
  lemma StrayOuter<C>(w: World<C>, base: seq<Frame<C>>, name: string, up: nat, use: Stmt<C>)
    requires Stands(w, base) && Around(w.objs, up).Inside? && Around(w.objs, up).active
    requires NoneWithin(w.objs, up, Around(w.objs, up).name)
    requires use == RollBackIt(up + 1, true) || use == ReleaseIt(up + 1, true)
    ensures var obj := Around(w.objs, up);
            RunStmt(w, Scope(name, true, [use], true)).end.Terminated? <==>
            name != obj.name && Find(base + Layout(obj.outer), name) == -1
  {
    var obj := Around(w.objs, up);
    OuterUse(w, base, name, up, use);
    CloseEnds(w, name, use);
    FindBelow'(base + Layout(obj.outer), obj.name, obj.saved, name);
  }

  lemma FindBelow'<C>(frames: seq<Frame<C>>, name: string, saved: C, other: string)
    ensures name != other ==> Find(frames + [Frame(name, saved)], other) == Find(frames, other)
  {
    if name != other {
      FindBelow(frames, name, saved, other);
    }
  }

  /** The frames that such a use leaves. */
  lemma OuterUse<C>(w: World<C>, base: seq<Frame<C>>, name: string, up: nat, use: Stmt<C>)
    requires Stands(w, base) && Around(w.objs, up).Inside? && Around(w.objs, up).active
    requires NoneWithin(w.objs, up, Around(w.objs, up).name)
    requires use == RollBackIt(up + 1, true) || use == ReleaseIt(up + 1, true)
    ensures var obj := Around(w.objs, up);
            var r := RunStmt(Entered(w, name), use);
            var below := base + Layout(obj.outer);
            && r.end.Normal? && r.w.objs.Inside? && r.w.objs.active && r.w.objs.name == name
            && if name == obj.name then Find(r.w.db.frames, name) >= 0
               else r.w.db.frames == if use.RollBackIt? then below + [Frame(obj.name, obj.saved)] else below
  {
    var obj := Around(w.objs, up);
    UnguardedUse(w, base, up);
    LayoutAround(w.objs, up);
    if name == obj.name {
      CutSame(w.db, name);
    } else {
      CutBelow(w.db, base + Layout(obj.outer), Frame(obj.name, obj.saved), name);
    }
    UseInScope(w, name, up, use);
  }

  /** A use of an object around a scope, by what its statement does. */
  lemma UseInScope<C>(w: World<C>, name: string, up: nat, use: Stmt<C>)
    requires Around(w.objs, up).Inside?
    requires use == RollBackIt(up + 1, true) || use == ReleaseIt(up + 1, true)
    ensures var obj, r := Around(w.objs, up), RunStmt(Entered(w, name), use);
            var sql := if use.RollBackIt? then RollbackTo(obj.name) else Release(obj.name);
            && (r.w.db, r.end.Normal?) == Exec(Entered(w, name).db, sql, true)
            && r.w.objs.Inside? && r.w.objs.active && r.w.objs.name == name
  {
    assert Around(Entered(w, name).objs, up + 1) == Around(w.objs, up);
  }

  /** A statement whose name is that of the last frame. */
  lemma CutSame<C>(db: Db<C>, name: string)
    requires Find(db.frames, name) >= 0
    ensures var on := db.(frames := db.frames + [Frame(name, db.content)]);
            && Exec(on, RollbackTo(name), true) == (on, true) && Find(on.frames, name) >= 0
            && Exec(on, Release(name), true) == (db, true)
  {
    var on := db.frames + [Frame(name, db.content)];
    FindLast(db.frames, name, db.content);
    assert on[..|db.frames| + 1] == on && on[..|db.frames|] == db.frames;
  }

  /** A statement whose name is that of the frame `own`, below the last one. */
  lemma CutBelow<C>(db: Db<C>, below: seq<Frame<C>>, own: Frame<C>, name: string)
    requires below + [own] <= db.frames && Find(db.frames, own.name) == |below| && name != own.name
    ensures var on := db.(frames := db.frames + [Frame(name, db.content)]);
            && Exec(on, RollbackTo(own.name), true) == (Db(own.saved, db.begun, below + [own]), true)
            && Exec(on, Release(own.name), true) == (db.(frames := below), true)
  {
    FindBelow(db.frames, name, db.content, own.name);
    var on := db.frames + [Frame(name, db.content)];
    assert on[..|below| + 1] == below + [own] && on[..|below|] == below;
  }

  /**
   Committing or rolling back the transaction inside a savepoint scope takes all savepoints, so that the scope's
   destructor ends the program: always, if the statement succeeds.
   */
  lemma FinishInScope<C>(w: World<C>, name: string, able: bool, use: Stmt<C>)
    requires use == CommitTx(able) || use == RollBackTx(able)
    ensures RunStmt(w, Scope(name, true, [use], true)).end.Terminated? <==> able
  {
    CloseEnds(w, name, use);
    FindLast(w.db.frames, name, w.db.content);
  }

  // ----- A discipline without straying -----

  /**
   `names` are taken; `gone` tells of each object around, innermost first, whether it was released for sure; `bare`
   says that there are no savepoints below the objects. No scope takes a name again while it is taken, while scopes
   one after the other may; an object is used only after those further in were released; a transaction is ended
   only when all are.
   */
  predicate Unique<C>(names: set<string>, gone: seq<bool>, bare: bool, st: Stmt<C>)
    decreases st
  {
    match st
    case Try(body) => UniqueBody(names, gone, bare, body)
    case Scope(name, _, body, _) => name !in names && UniqueBody(names + {name}, [false] + gone, bare, body)
    case RollBackIt(up, _) => GoneBefore(gone, up)
    case ReleaseIt(up, _) => GoneBefore(gone, up)
    case CommitTx(_) => bare && GoneBefore(gone, |gone|)
    case RollBackTx(_) => bare && GoneBefore(gone, |gone|)
    case _ => true
  }

  predicate GoneBefore(gone: seq<bool>, up: nat) {
    gone == [] || up == 0 || (gone[0] && GoneBefore(gone[1..], up - 1))
  }

  /** What is released for sure if the statement ends normally. */
  function GoneAfter<C>(gone: seq<bool>, st: Stmt<C>): seq<bool> {
    if st.ReleaseIt? && st.up < |gone| then gone[st.up := true] else gone
  }

  predicate UniqueBody<C>(names: set<string>, gone: seq<bool>, bare: bool, body: seq<Stmt<C>>)
    decreases body
  {
    body == [] || (Unique(names, gone, bare, body[0]) && UniqueBody(names, GoneAfter(gone, body[0]), bare, body[1..]))
  }

  ghost predicate Gone<C>(objs: Objs<C>, gone: seq<bool>) {
    if objs.Outside? then gone == []
    else gone != [] && (gone[0] ==> !objs.active) && Gone(objs.outer, gone[1..])
  }

  function Names<C>(objs: Objs<C>): set<string> {
    if objs.Outside? then {} else {objs.name} + Names(objs.outer)
  }

  /** The objects have different names, all among `names`, and none of them is on `base`. */
  ghost predicate Named<C>(objs: Objs<C>, base: seq<Frame<C>>, names: set<string>) {
    && (forall i :: 0 <= i < |base| ==> base[i].name in names)
    && (objs.Inside? ==>
          && objs.name in names && objs.name !in Names(objs.outer)
          && (forall i :: 0 <= i < |base| ==> base[i].name != objs.name)
          && Named(objs.outer, base, names))
  }

  ghost predicate Disciplined<C>(w: World<C>, base: seq<Frame<C>>, names: set<string>, gone: seq<bool>, bare: bool) {
    Stands(w, base) && Named(w.objs, base, names) && Gone(w.objs, gone) && (bare ==> base == [])
  }

  /** A program that keeps the discipline never strays. */
  lemma {:induction false} UniqueNeverStrays<C>(
      w: World<C>, st: Stmt<C>, base: seq<Frame<C>>, names: set<string>, gone: seq<bool>, bare: bool)
    requires Disciplined(w, base, names, gone, bare) && Unique(names, gone, bare, st)
    ensures !RunStmt(w, st).strayed
    decreases st
  {
    match st {
      case Try(body) => UniqueBodyNeverStrays(w, body, base, names, gone, bare);
      case Scope(name, opens, body, closes) =>
        if opens {
          ScopeRun(w, name, body, closes);
          EnteredDisciplined(w, name, base, names, gone, bare);
          UniqueBodyNeverStrays(Entered(w, name), body, base, names + {name}, [false] + gone, bare);
        }
      case RollBackIt(up, _) => UseInOrder(w, up, base, names, gone, bare);
      case ReleaseIt(up, _) => UseInOrder(w, up, base, names, gone, bare);
      case CommitTx(_) => AllGone(w.objs, gone);
      case RollBackTx(_) => AllGone(w.objs, gone);
      case _ =>
    }
  }

  lemma {:induction false} UniqueBodyNeverStrays<C>(
      w: World<C>, body: seq<Stmt<C>>, base: seq<Frame<C>>, names: set<string>, gone: seq<bool>, bare: bool)
    requires Disciplined(w, base, names, gone, bare) && UniqueBody(names, gone, bare, body)
    ensures !RunBody(w, body).strayed
    decreases body
  {
    if body == [] {
    } else {
      var first := RunStmt(w, body[0]);
      UniqueNeverStrays(w, body[0], base, names, gone, bare);
      if first.end.Normal? {
        StmtBalanced(w, body[0], base);
        StmtContained(w, body[0]);
        WeakenedNamed(w.objs, first.w.objs, base, names);
        WeakenedGone(w.objs, first.w.objs, gone);
        if body[0].ReleaseIt? && Around(w.objs, body[0].up).Inside? {
          DeactivatedGone(w.objs, body[0].up, gone);
        } else if body[0].ReleaseIt? {
          NothingAround(w.objs, body[0].up, gone);
        }
        UniqueBodyNeverStrays(first.w, body[1..], base, names, GoneAfter(gone, body[0]), bare);
      }
    }
  }

  lemma EnteredDisciplined<C>(
      w: World<C>, name: string, base: seq<Frame<C>>, names: set<string>, gone: seq<bool>, bare: bool)
    requires Disciplined(w, base, names, gone, bare) && name !in names
    ensures Disciplined(Entered(w, name), base, names + {name}, [false] + gone, bare)
  {
    EnteredStands(w, name, base);
    MoreNames(w.objs, base, names, name);
    assert ([false] + gone)[1..] == gone;
  }

  lemma {:induction false} MoreNames<C>(objs: Objs<C>, base: seq<Frame<C>>, names: set<string>, name: string)
    requires Named(objs, base, names)
    ensures Named(objs, base, names + {name}) && Names(objs) <= names
  {
    if objs.Outside? {
    } else {
      MoreNames(objs.outer, base, names, name);
    }
  }

  lemma {:induction false} WeakenedNamed<C>(objs: Objs<C>, objs': Objs<C>, base: seq<Frame<C>>, names: set<string>)
    requires Weakened(objs, objs') && Named(objs, base, names)
    ensures Named(objs', base, names) && Names(objs') == Names(objs)
  {
    if objs.Outside? {
    } else {
      WeakenedNamed(objs.outer, objs'.outer, base, names);
    }
  }

  lemma {:induction false} WeakenedGone<C>(objs: Objs<C>, objs': Objs<C>, gone: seq<bool>)
    requires Weakened(objs, objs') && Gone(objs, gone)
    ensures Gone(objs', gone)
  {
    if objs.Outside? {
    } else {
      WeakenedGone(objs.outer, objs'.outer, gone[1..]);
    }
  }

  lemma {:induction false} DeactivatedGone<C>(objs: Objs<C>, up: nat, gone: seq<bool>)
    requires Gone(objs, gone) && Around(objs, up).Inside?
    ensures up < |gone| && Gone(Deactivated(objs, up), gone[up := true])
  {
    if up == 0 {
      assert gone[up := true][1..] == gone[1..];
    } else {
      DeactivatedGone(objs.outer, up - 1, gone[1..]);
      assert gone[up := true][1..] == gone[1..][up - 1 := true];
    }
  }

  lemma {:induction false} NothingAround<C>(objs: Objs<C>, up: nat, gone: seq<bool>)
    requires Gone(objs, gone) && Around(objs, up).Outside?
    ensures |gone| <= up
  {
    if objs.Outside? {
    } else {
      NothingAround(objs.outer, up - 1, gone[1..]);
    }
  }

  lemma {:induction false} AllGone<C>(objs: Objs<C>, gone: seq<bool>)
    requires Gone(objs, gone) && GoneBefore(gone, |gone|)
    ensures Layout(objs) == []
  {
    if objs.Outside? {
    } else {
      AllGone(objs.outer, gone[1..]);
    }
  }

  /** In order, an active object is the innermost active one, and the name of a released one reaches nothing. */
  lemma UseInOrder<C>(
      w: World<C>, up: nat, base: seq<Frame<C>>, names: set<string>, gone: seq<bool>, bare: bool)
    requires Disciplined(w, base, names, gone, bare) && GoneBefore(gone, up)
    ensures var obj := Around(w.objs, up);
            obj.Inside? ==> Top(w.objs, up) || Find(w.db.frames, obj.name) == -1
  {
    var obj := Around(w.objs, up);
    if obj.Outside? {
    } else if obj.active {
      ActiveIsTop(w.objs, up, gone);
    } else {
      ReleasedIsUnknown(w.objs, up, base, names);
      NameReaches(w.objs, base, obj.name);
    }
  }

  lemma {:induction false} ActiveIsTop<C>(objs: Objs<C>, up: nat, gone: seq<bool>)
    requires Gone(objs, gone) && GoneBefore(gone, up) && Around(objs, up).Inside? && Around(objs, up).active
    ensures Top(objs, up)
  {
    if up == 0 {
    } else {
      ActiveIsTop(objs.outer, up - 1, gone[1..]);
    }
  }

  lemma {:induction false} ReleasedIsUnknown<C>(objs: Objs<C>, up: nat, base: seq<Frame<C>>, names: set<string>)
    requires Named(objs, base, names) && Around(objs, up).Inside? && !Around(objs, up).active
    ensures var name := Around(objs, up).name;
            name in Names(objs) && Finds(objs, name).Outside? && Find(base, name) == -1
  {
    if up == 0 {
      NotNamed(objs.outer, objs.name);
    } else {
      ReleasedIsUnknown(objs.outer, up - 1, base, names);
    }
  }

  lemma {:induction false} NotNamed<C>(objs: Objs<C>, name: string)
    requires name !in Names(objs)
    ensures Finds(objs, name).Outside?
  {
    if objs.Outside? {
    } else {
      NotNamed(objs.outer, name);
    }
  }
}
