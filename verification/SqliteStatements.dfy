/**
 The part of SQLite that vsqlite++ drives: a table of prepared statements, each with its text, owning
 handle, bindings and cursor. Compiling, binding and stepping are parameters, so that every result
 holds for any SQL dialect and any database content.
 */
module SqliteStatements {
  import opened Prelude

  type StmtId = nat
  type Handle = nat

  datatype Value = Null | Integer(i: int) | Text(s: string) | Blob(b: seq<bv8>)

  /** What a caller can observe of a statement besides its text. */
  datatype View = View(bindings: map<int, Value>, cursor: nat)

  const FRESH: View := View(map[], 0)

  /** Content of the database, never inspected by the wrapper. */
  datatype Image = Image(tables: map<string, seq<seq<Value>>>)

  datatype Compiled = Program | NoProgram | Rejected(code: int)
  datatype StepCode = Row | Done | Misuse(code: int) | Failed(code: int)
  datatype Stepped = Stepped(code: StepCode, cursor: nat, image: Image)

  /** SQLite with a fixed schema: compiling depends on the text alone. */
  datatype System = System(
    compile: string -> Compiled,
    bindError: (string, View, int, Value) -> int,
    step: (string, View, Image) -> Stepped)

  datatype Stmt = Stmt(text: string, owner: Handle, view: View)

  /** `stmts` are the statements not yet finalized; `finalized` logs every finalization in order. */
  datatype Engine = Engine(stmts: map<StmtId, Stmt>, finalized: seq<StmtId>, next: StmtId, image: Image)
  {
    /** Every statement ever prepared is alive or was finalized exactly once. */
    ghost predicate Conserved() {
      && Distinct(finalized)
      && (forall s :: s in stmts ==> s < next)
      && (forall s :: s in finalized ==> s < next && s !in stmts)
      && (forall s: StmtId :: s < next ==> s in stmts || s in finalized)
    }

    /** `sqlite3_prepare_v2` of a text that compiles; the new statement gets the id `next`. */
    function Prepare(text: string, owner: Handle): Engine {
      Engine(stmts[next := Stmt(text, owner, FRESH)], finalized, next + 1, image)
    }

    /** `sqlite3_finalize`. */
    function Finalize(s: StmtId): Engine
      requires s in stmts
    {
      Engine(stmts - {s}, finalized + [s], next, image)
    }

    /** `sqlite3_reset`. */
    function Reset(s: StmtId): Engine
      requires s in stmts
    {
      SetView(s, stmts[s].view.(cursor := 0))
    }

    /** `sqlite3_clear_bindings`. */
    function ClearBindings(s: StmtId): Engine
      requires s in stmts
    {
      SetView(s, stmts[s].view.(bindings := map[]))
    }

    function SetView(s: StmtId, v: View): Engine
      requires s in stmts
    {
      Engine(stmts[s := stmts[s].(view := v)], finalized, next, image)
    }

    /** `sqlite3_bind_*`: the code is zero on success; a failing bind changes nothing. */
    function Bind(sys: System, s: StmtId, idx: int, v: Value): (Engine, int)
      requires s in stmts
    {
      var code := sys.bindError(stmts[s].text, stmts[s].view, idx, v);
      if code != 0 then (this, code)
      else (SetView(s, stmts[s].view.(bindings := stmts[s].view.bindings[idx := v])), 0)
    }

    /** `sqlite3_step`. */
    function Step(sys: System, s: StmtId): (Engine, StepCode)
      requires s in stmts
    {
      var r := sys.step(stmts[s].text, stmts[s].view, image);
      (SetView(s, stmts[s].view.(cursor := r.cursor)).(image := r.image), r.code)
    }

    /** The loop of `sqlite3_finalize` over a list of statements. */
    ghost function FinalizeAll(ids: seq<StmtId>): Engine
      requires Distinct(ids) && forall s :: s in ids ==> s in stmts
    {
      Engine(stmts - Elements(ids), finalized + ids, next, image)
    }

    lemma FinalizeAllConserves(ids: seq<StmtId>)
      requires Conserved() && Distinct(ids) && forall s :: s in ids ==> s in stmts
      ensures FinalizeAll(ids).Conserved()
    {
      var log := finalized + ids;
      forall i, j | 0 <= i < j < |log| ensures log[i] != log[j] {
        if i < |finalized| <= j {
          assert log[i] in finalized && log[j] in ids;
        }
      }
    }

    lemma FinalizeConserves(s: StmtId)
      requires Conserved() && s in stmts
      ensures Finalize(s).Conserved()
    {
    }
  }

  /** One open handle: the only place where the statement table changes. */
  class Sqlite {
    const sys: System
    var engine: Engine

    constructor (sys: System, image: Image)
      ensures this.sys == sys && engine == Engine(map[], [], 0, image) && engine.Conserved()
    {
      this.sys := sys;
      engine := Engine(map[], [], 0, image);
    }

    method Prepare(text: string, owner: Handle) returns (s: StmtId)
      modifies this
      ensures s == old(engine.next) && engine == old(engine).Prepare(text, owner)
    {
      s := engine.next;
      engine := engine.Prepare(text, owner);
    }

    method Finalize(s: StmtId)
      requires s in engine.stmts
      modifies this
      ensures engine == old(engine).Finalize(s)
    {
      engine := engine.Finalize(s);
    }

    method Reset(s: StmtId)
      requires s in engine.stmts
      modifies this
      ensures engine == old(engine).Reset(s)
    {
      engine := engine.Reset(s);
    }

    method ClearBindings(s: StmtId)
      requires s in engine.stmts
      modifies this
      ensures engine == old(engine).ClearBindings(s)
    {
      engine := engine.ClearBindings(s);
    }

    method Bind(s: StmtId, idx: int, v: Value) returns (code: int)
      requires s in engine.stmts
      modifies this
      ensures (engine, code) == old(engine).Bind(sys, s, idx, v)
    {
      var r := engine.Bind(sys, s, idx, v);
      engine, code := r.0, r.1;
    }

    method Step(s: StmtId) returns (code: StepCode)
      requires s in engine.stmts
      modifies this
      ensures (engine, code) == old(engine).Step(sys, s)
    {
      var r := engine.Step(sys, s);
      engine, code := r.0, r.1;
    }
  }
}
