/**
 What a caller learns from using a command, in terms of SQLite's own answers: the codes of `sqlite3_step` and
 `sqlite3_bind_*`, the bindings a statement is stepped with, and the position of the next argument.
 */
module CommandLaws {
  import opened Prelude
  import opened SqliteStatements
  import opened SchemaKeywords
  import opened Commands
  import opened CommandRuns

  /** The connection is open and the command has a statement. */
  ghost predicate Ready(s: Session, cmd: Cmd) {
    s.handle.Some? && cmd.stmt.Some? && cmd.stmt.value in s.engine.stmts
  }

  /** The command's statement with another view. */
  function Viewed(s: Session, cmd: Cmd, view: View): Session
    requires cmd.stmt.Some? && cmd.stmt.value in s.engine.stmts
  {
    s.(engine := s.engine.(stmts := s.engine.stmts[cmd.stmt.value := s.engine.stmts[cmd.stmt.value].(view := view)]))
  }

  /** A step answers true for a row and false at the end, and throws for misuse and for other errors. */
  lemma StepLaw(sys: System, s: Session, cmd: Cmd)
    requires Ready(s, cmd)
    ensures var st := s.engine.stmts[cmd.stmt.value];
            var answer := sys.step(st.text, st.view, s.engine.image);
            var r := s.Step(sys, cmd);
            && (r.outcome == HasRow(true) <==> answer.code == Row)
            && (r.outcome == HasRow(false) <==> answer.code == Done)
            && (forall c :: r.outcome == Misused(c) <==> answer.code == Misuse(c))
            && (forall c :: r.outcome == Errored(c) <==> answer.code == Failed(c))
            && r.cmd == cmd
            && r.session.engine.stmts == Viewed(s, cmd, View(st.view.bindings, answer.cursor)).engine.stmts
            && r.session.engine.image == answer.image
  {
  }

  /** One binding: refused with SQLite's code and without effect, or visible at its index. */
  lemma BindLaw(sys: System, s: Session, cmd: Cmd, idx: int, v: Value)
    requires Ready(s, cmd)
    ensures var st := s.engine.stmts[cmd.stmt.value];
            var code := sys.bindError(st.text, st.view, idx, v);
            s.Bind(sys, cmd, idx, v) ==
            if code != 0 then Ran(s, cmd, Errored(code))
            else Ran(Viewed(s, cmd, View(st.view.bindings[idx := v], st.view.cursor)), cmd, Completed)
  {
  }

  /** `%` binds at the index behind the last one, whether or not SQLite accepts it. */
  lemma BindNextLaw(sys: System, s: Session, cmd: Cmd, v: Value)
    requires Ready(s, cmd)
    ensures var st := s.engine.stmts[cmd.stmt.value];
            var code := sys.bindError(st.text, st.view, cmd.lastArg + 1, v);
            && s.BindNext(sys, cmd, v).cmd == cmd.(lastArg := cmd.lastArg + 1)
            && (code != 0 ==> s.BindNext(sys, cmd, v).session == s && s.BindNext(sys, cmd, v).outcome == Errored(code))
            && (code == 0 ==>
                  && s.BindNext(sys, cmd, v).outcome == Completed
                  && s.BindNext(sys, cmd, v).session ==
                     Viewed(s, cmd, View(st.view.bindings[cmd.lastArg + 1 := v], st.view.cursor)))
  {
  }

  /** A closed connection finds no cached statement, and finalizes one that is given back to it. */
  lemma ClosedLaw(s: Session, sql: string, st: StmtId)
    requires s.Sound() && s.handle.None?
    ensures s.AcquireCached(sql) == (s, None)
    ensures s.Owned(Some(st)) ==>
              var s' := s.ReleaseCached(sql, st);
              && s'.cache == s.cache && s'.handle == None
              && s'.engine.stmts == s.engine.stmts - {st} && s'.engine.finalized == s.engine.finalized + [st]
  {
  }

  /** The statement of a schema-changing text is finalized at the end of its command, whatever the cache is. */
  lemma SchemaChangeFinalizes(s: Session, cmd: Cmd)
    requires s.Sound() && s.Owned(cmd.stmt) && Ready(s, cmd) && IsSchemaChanging(cmd.sql)
    ensures var r := s.Finalize(cmd);
            && r.outcome == Completed && r.cmd == cmd.(stmt := None) && r.session.cache == s.cache
            && r.session.engine.stmts == s.engine.stmts - {cmd.stmt.value}
            && r.session.engine.finalized == s.engine.finalized + [cmd.stmt.value]
  {
  }

  /** Without an open connection or a statement nothing is bound or stepped, and the exception says which is missing. */
  lemma NotReadyLaw(sys: System, s: Session, cmd: Cmd, action: Action)
    requires s.handle.None? || cmd.stmt.None?
    requires cmd.stmt.Some? ==> cmd.stmt.value in s.engine.stmts
    requires action.Bind? || action.BindNext? || action.Step? || action.Call?
    ensures var r := Do(sys, s, cmd, action);
            && r.outcome == (if s.handle.None? then NotOpen else NotPrepared)
            && (action.Bind? || action.Step? || cmd.stmt.None? ==> r.session == s)
            && (action.Bind? || action.Step? ==> r.cmd == cmd)
            && (action.BindNext? ==> r.cmd == cmd.(lastArg := cmd.lastArg + 1))
  {
  }

  /** Clearing rewinds and starts again at the first parameter, and keeps what is bound. */
  lemma ClearLaw(sys: System, s: Session, cmd: Cmd)
    requires Ready(s, cmd)
    ensures var st := s.engine.stmts[cmd.stmt.value];
            && Do(sys, s, cmd, Clear) ==
               Ran(Viewed(s, cmd, View(st.view.bindings, 0)), cmd.(lastArg := 0), Completed)
            && Do(sys, s, cmd, Rewind) == Ran(Viewed(s, cmd, View(st.view.bindings, 0)), cmd, Completed)
  {
  }

  lemma RewindLaw(s: Session, cmd: Cmd)
    requires Ready(s, cmd)
    ensures s.Rewind(cmd) == Viewed(s, cmd, View(s.engine.stmts[cmd.stmt.value].view.bindings, 0))
  {
  }

  // ----- operator() -----

  /** The view with `args` bound one by one from index `first` on. */
  function BoundView(view: View, first: int, args: seq<Value>): View
    decreases args
  {
    if args == [] then view else BoundView(View(view.bindings[first := args[0]], view.cursor), first + 1, args[1..])
  }

  /** So each argument is at its own index, and everything else is as before. */
  lemma {:induction false} BoundViewLaw(view: View, first: int, args: seq<Value>, k: int)
    ensures var after := BoundView(view, first, args);
            && after.cursor == view.cursor
            && (0 <= k - first < |args| ==> k in after.bindings && after.bindings[k] == args[k - first])
            && (!(0 <= k - first < |args|) ==>
                  && (k in after.bindings <==> k in view.bindings)
                  && (k in view.bindings ==> after.bindings[k] == view.bindings[k]))
    decreases args
  {
    if args == [] {
    } else {
      BoundViewLaw(View(view.bindings[first := args[0]], view.cursor), first + 1, args[1..], k);
    }
  }

  /** SQLite accepts the first `n` of the arguments, each after those before it. */
  ghost predicate Accepts(sys: System, text: string, view: View, first: int, args: seq<Value>, n: nat)
    requires n <= |args|
  {
    forall i :: 0 <= i < n ==> sys.bindError(text, BoundView(view, first, args[..i]), first + i, args[i]) == 0
  }

  /** Accepting a list of arguments is accepting the first and then the others. */
  lemma AcceptsRest(sys: System, text: string, view: View, first: int, args: seq<Value>, n: nat)
    requires 0 < n <= |args| && Accepts(sys, text, view, first, args, n)
    ensures sys.bindError(text, view, first, args[0]) == 0
    ensures Accepts(sys, text, View(view.bindings[first := args[0]], view.cursor), first + 1, args[1..], n - 1)
  {
    assert sys.bindError(text, BoundView(view, first, args[..0]), first + 0, args[0]) == 0;
    var one := View(view.bindings[first := args[0]], view.cursor);
    forall i | 0 <= i < n - 1
      ensures sys.bindError(text, BoundView(one, first + 1, args[1..][..i]), first + 1 + i, args[1..][i]) == 0
    {
      BoundViewFront(view, first, args, i + 1);
      assert sys.bindError(text, BoundView(view, first, args[..i + 1]), first + (i + 1), args[i + 1]) == 0;
    }
  }

  lemma BoundViewFront(view: View, first: int, args: seq<Value>, n: nat)
    requires 0 < n <= |args|
    ensures BoundView(view, first, args[..n]) ==
            BoundView(View(view.bindings[first := args[0]], view.cursor), first + 1, args[1..][..n - 1])
  {
    assert args[..n][1..] == args[1..][..n - 1];
  }

  /** What SQLite answers to argument `n` after those before it. */
  ghost function Refusal(sys: System, text: string, view: View, first: int, args: seq<Value>, n: nat): int
    requires n < |args|
  {
    sys.bindError(text, BoundView(view, first, args[..n]), first + n, args[n])
  }

  /** Binding the arguments in order up to the first that is refused. */
  lemma {:induction false} BindAllLaw(sys: System, s: Session, cmd: Cmd, args: seq<Value>, n: nat)
    requires Ready(s, cmd) && n <= |args|
    requires var st := s.engine.stmts[cmd.stmt.value]; Accepts(sys, st.text, st.view, cmd.lastArg + 1, args, n)
    requires var st := s.engine.stmts[cmd.stmt.value];
             n < |args| ==> Refusal(sys, st.text, st.view, cmd.lastArg + 1, args, n) != 0
    ensures var st := s.engine.stmts[cmd.stmt.value];
            var after := Viewed(s, cmd, BoundView(st.view, cmd.lastArg + 1, args[..n]));
            s.BindAll(sys, cmd, args) ==
            if n == |args| then Ran(after, cmd.(lastArg := cmd.lastArg + n), Completed)
            else Ran(after, cmd.(lastArg := cmd.lastArg + n + 1),
                     Errored(Refusal(sys, st.text, st.view, cmd.lastArg + 1, args, n)))
    decreases args
  {
    var st, first := s.engine.stmts[cmd.stmt.value], cmd.lastArg + 1;
    if n == 0 {
      assert args[..0] == [] && Viewed(s, cmd, st.view) == s;
    } else {
      AcceptsRest(sys, st.text, st.view, first, args, n);
      BoundViewFront(st.view, first, args, n);
      var one := View(st.view.bindings[first := args[0]], st.view.cursor);
      var s', cmd' := Viewed(s, cmd, one), cmd.(lastArg := first);
      BindLaw(sys, s, cmd', first, args[0]);
      assert s.BindNext(sys, cmd, args[0]) == Ran(s', cmd', Completed);
      if n < |args| {
        BoundViewFront(st.view, first, args, n);
        assert Refusal(sys, st.text, st.view, first, args, n) ==
               Refusal(sys, st.text, one, first + 1, args[1..], n - 1);
      }
      BindAllLaw(sys, s', cmd', args[1..], n - 1);
      ViewedTwice(s, cmd, one, BoundView(one, first + 1, args[1..][..n - 1]));
    }
  }

  lemma ViewedTwice(s: Session, cmd: Cmd, view: View, view': View)
    requires cmd.stmt.Some? && cmd.stmt.value in s.engine.stmts
    ensures Viewed(Viewed(s, cmd, view), cmd, view') == Viewed(s, cmd, view')
  {
  }

  /**
   `operator()` with arguments that SQLite accepts steps the rewound statement with each argument bound behind the
   last position, everything bound before kept. The position starts again at the first parameter if the step answers
   with a row or the end; after an exception it stays behind the last argument.
   */
  lemma CallLaw(sys: System, s: Session, cmd: Cmd, args: seq<Value>)
    requires Ready(s, cmd) && args != []
    requires var st := s.engine.stmts[cmd.stmt.value];
             Accepts(sys, st.text, View(st.view.bindings, 0), cmd.lastArg + 1, args, |args|)
    ensures var st := s.engine.stmts[cmd.stmt.value];
            var view := BoundView(View(st.view.bindings, 0), cmd.lastArg + 1, args);
            var answer := sys.step(st.text, view, s.engine.image);
            var r := s.Call(sys, cmd, args);
            && (r.outcome == HasRow(true) <==> answer.code == Row)
            && (r.outcome == HasRow(false) <==> answer.code == Done)
            && (forall c :: r.outcome == Misused(c) <==> answer.code == Misuse(c))
            && (forall c :: r.outcome == Errored(c) <==> answer.code == Failed(c))
            && r.cmd == cmd.(lastArg := if answer.code == Row || answer.code == Done then 0 else cmd.lastArg + |args|)
            && r.session.engine.stmts[cmd.stmt.value].view == View(view.bindings, answer.cursor)
            && r.session.engine.image == answer.image
  {
    var rewound := Viewed(s, cmd, View(s.engine.stmts[cmd.stmt.value].view.bindings, 0));
    RewindLaw(s, cmd);
    BindAllLaw(sys, rewound, cmd, args, |args|);
    assert args[..|args|] == args;
    var bound := rewound.BindAll(sys, cmd, args);
    StepLaw(sys, bound.session, bound.cmd);
  }

  /** An argument that SQLite refuses ends the call: nothing is stepped, and the position stays behind that argument. */
  lemma CallRefusedLaw(sys: System, s: Session, cmd: Cmd, args: seq<Value>, n: nat)
    requires Ready(s, cmd) && n < |args|
    requires var st := s.engine.stmts[cmd.stmt.value];
             Accepts(sys, st.text, View(st.view.bindings, 0), cmd.lastArg + 1, args, n)
    requires var st := s.engine.stmts[cmd.stmt.value];
             Refusal(sys, st.text, View(st.view.bindings, 0), cmd.lastArg + 1, args, n) != 0
    ensures var st := s.engine.stmts[cmd.stmt.value];
            var rewound := View(st.view.bindings, 0);
            s.Call(sys, cmd, args) ==
            Ran(Viewed(s, cmd, BoundView(rewound, cmd.lastArg + 1, args[..n])), cmd.(lastArg := cmd.lastArg + n + 1),
                Errored(Refusal(sys, st.text, rewound, cmd.lastArg + 1, args, n)))
  {
    var rewound := Viewed(s, cmd, View(s.engine.stmts[cmd.stmt.value].view.bindings, 0));
    RewindLaw(s, cmd);
    BindAllLaw(sys, rewound, cmd, args, n);
    ViewedTwice(s, cmd, View(s.engine.stmts[cmd.stmt.value].view.bindings, 0),
                BoundView(View(s.engine.stmts[cmd.stmt.value].view.bindings, 0), cmd.lastArg + 1, args[..n]));
  }

  /** Without arguments `operator()` is a step that starts again at the first parameter unless it throws. */
  lemma CallPlainLaw(sys: System, s: Session, cmd: Cmd)
    requires Ready(s, cmd)
    ensures var st := s.engine.stmts[cmd.stmt.value];
            var code := sys.step(st.text, st.view, s.engine.image).code;
            s.Call(sys, cmd, []) ==
            s.Step(sys, cmd).(cmd := cmd.(lastArg := if code == Row || code == Done then 0 else cmd.lastArg))
  {
    StepLaw(sys, s, cmd);
  }
}
