/**
 Rows as a result and a range deliver them. The statement underneath restarts by itself when it is stepped
 again after its last row; the results made from it share its position.
 */
module RowCursor {
  import opened Prelude
  import opened Arithmetic

  type Rid = nat

  /** What one result sees: `n` rows, of which `pos` were stepped over since the start, and its own end flag. */
  datatype Cursor = Cursor(n: nat, pos: nat, ended: bool)

  ghost predicate Fits(c: Cursor) {
    c.pos <= c.n
  }

  /** `sqlite3_step`: the row reached, or none and back to the start. */
  function Step(n: nat, pos: nat): (nat, Option<nat>)
    requires pos <= n
  {
    if pos < n then (pos + 1, Some(pos)) else (0, None)
  }

  /** `next_row`. */
  function Advanced(c: Cursor): (Cursor, Option<nat>)
    requires Fits(c)
  {
    if c.ended then (c, None)
    else
      var (pos, row) := Step(c.n, c.pos);
      (Cursor(c.n, pos, row.None?), row)
  }

  /** An ended result stays where it is; any other takes the next row, or ends and sends the statement to its start. */
  lemma AdvancedLaw(c: Cursor)
    requires Fits(c)
    ensures c.ended ==> Advanced(c) == (c, None)
    ensures !c.ended && c.pos < c.n ==> Advanced(c) == (Cursor(c.n, c.pos + 1, false), Some(c.pos))
    ensures !c.ended && c.pos == c.n ==> Advanced(c) == (Cursor(c.n, 0, true), None)
  {
  }

  /** `reset`. */
  function Rewound(c: Cursor): Cursor {
    c.(ended := false)
  }

  // ----- Any number of results on one statement -----

  /** A query: its statement has `n` rows and stands at `pos`; `ended` are the results made from it. */
  datatype Query = Query(n: nat, pos: nat, ended: map<Rid, bool>)
  {
    function View(r: Rid): Cursor {
      Cursor(n, pos, r in ended ==> ended[r])
    }

    function With(r: Rid, c: Cursor): Query {
      Query(n, c.pos, ended[r := c.ended])
    }
  }

  /** `get_result`, `emit_result`, which steps at once, and the two operations of a result. */
  datatype Op = Get(r: Rid) | Emit(r: Rid) | Next(r: Rid) | Reset(r: Rid)

  /** Whether the operation steps the statement. */
  predicate Steps(q: Query, op: Op) {
    op.Emit? || (op.Next? && !q.View(op.r).ended)
  }

  /** The query afterwards, and the row reached if the statement was stepped to one. */
  function Do(q: Query, op: Op): (Query, Option<nat>)
    requires q.pos <= q.n
  {
    if Steps(q, op) then
      var (c, row) := Advanced(Rewound(q.View(op.r)));
      (q.With(op.r, c), row)
    else if op.Get? || (op.Reset? && op.r in q.ended) then (q.With(op.r, Rewound(q.View(op.r))), None)
    else (q, None)
  }

  function Run(q: Query, ops: seq<Op>): (q': Query)
    requires q.pos <= q.n
    ensures q'.n == q.n && q'.pos <= q'.n
    decreases |ops|
  {
    if ops == [] then q else Do(Run(q, ops[..|ops| - 1]), ops[|ops| - 1]).0
  }

  /** The rows delivered, through whichever result, in order. */
  function Delivered(q: Query, ops: seq<Op>): seq<nat>
    requires q.pos <= q.n
    decreases |ops|
  {
    if ops == [] then []
    else
      var before := ops[..|ops| - 1];
      var row := Do(Run(q, before), ops[|ops| - 1]).1;
      Delivered(q, before) + if row.Some? then [row.value] else []
  }

  /** What each operation does: stepping operations move the shared position, the others only an end flag. */
  lemma OperationLaw(q: Query, r: Rid)
    requires q.pos <= q.n
    ensures Do(q, Get(r)) == (q.(ended := q.ended[r := false]), None)
    ensures Do(q, Reset(r)) == (if r in q.ended then q.(ended := q.ended[r := false]) else q, None)
    ensures var stepped := if q.pos < q.n then (Query(q.n, q.pos + 1, q.ended[r := false]), Some(q.pos))
                           else (Query(q.n, 0, q.ended[r := true]), None);
            && Do(q, Emit(r)) == stepped
            && Do(q, Next(r)) == if r in q.ended && !q.ended[r] then stepped else (q, None)
  {
  }

  /** A new result and `m` calls of `next_row`. */
  function Reads(r: Rid, m: nat): seq<Op> {
    if m == 0 then [Get(r)] else Reads(r, m - 1) + [Next(r)]
  }

  /** The query after `m` calls. */
  function AfterReads(n: nat, r: Rid, m: nat): Query {
    Query(n, if m <= n then m else 0, map[r := m > n])
  }

  lemma ReadOne(n: nat, r: Rid, m: nat)
    ensures Do(AfterReads(n, r, m), Next(r)) == (AfterReads(n, r, m + 1), if m < n then Some(m) else None)
  {
    OperationLaw(AfterReads(n, r, m), r);
    assert forall b: bool :: AfterReads(n, r, m).ended[r := b] == map[r := b];
  }

  /** The first `k` rows in order. */
  function Rows(k: nat): (rows: seq<nat>)
    ensures |rows| == k && forall i :: 0 <= i < k ==> rows[i] == i
  {
    if k == 0 then [] else Rows(k - 1) + [k - 1]
  }

  /**
   One result read alone delivers each row once, in order, and after the last one nothing more however often it is
   asked.
   */
  lemma {:induction false} OnePass(n: nat, r: Rid, m: nat)
    ensures Run(Query(n, 0, map[]), Reads(r, m)) == AfterReads(n, r, m)
    ensures Delivered(Query(n, 0, map[]), Reads(r, m)) == Rows(if m <= n then m else n)
  {
    var q := Query(n, 0, map[]);
    if m == 0 {
      OneMore(q, [], Get(r));
      assert [] + [Get(r)] == [Get(r)];
      OperationLaw(q, r);
      assert q.ended[r := false] == map[r := false];
    } else {
      OnePass(n, r, m - 1);
      OnePassStep(q, Reads(r, m - 1), r, m - 1);
    }
  }

  lemma OnePassStep(q: Query, ops: seq<Op>, r: Rid, m: nat)
    requires q.pos == 0 && Run(q, ops) == AfterReads(q.n, r, m)
    requires Delivered(q, ops) == Rows(if m <= q.n then m else q.n)
    ensures Run(q, ops + [Next(r)]) == AfterReads(q.n, r, m + 1)
    ensures Delivered(q, ops + [Next(r)]) == Rows(if m + 1 <= q.n then m + 1 else q.n)
  {
    OneMore(q, ops, Next(r));
    ReadOne(q.n, r, m);
  }

  /**
   However the results of a query are read, reset and interleaved, the k-th row delivered is row k modulo the
   number of rows: between them no row is skipped or delivered twice.
   */
  lemma {:induction false} CursorLaw(q: Query, ops: seq<Op>, k: nat)
    requires q.pos <= q.n && q.n > 0 && k < |Delivered(q, ops)|
    ensures Delivered(q, ops)[k] == (q.pos + k) % q.n
    decreases |ops|
  {
    var before := ops[..|ops| - 1];
    if k < |Delivered(q, before)| {
      CursorLaw(q, before, k);
    } else {
      PositionLaw(q, before);
      SmallModulus(Run(q, before).pos, q.n);
    }
  }

  /** The position is the number of rows delivered, modulo the number of rows. */
  lemma {:induction false} PositionLaw(q: Query, ops: seq<Op>)
    requires q.pos <= q.n && q.n > 0
    ensures Run(q, ops).pos % q.n == (q.pos + |Delivered(q, ops)|) % q.n
    decreases |ops|
  {
    if ops == [] {
    } else {
      var before := ops[..|ops| - 1];
      PositionLaw(q, before);
      DoSteps(Run(q, before), ops[|ops| - 1]);
      StepModulus(q.n, Run(q, before).pos, q.pos + |Delivered(q, before)|);
    }
  }

  lemma DoSteps(q: Query, op: Op)
    requires q.pos <= q.n
    ensures var (q', row) := Do(q, op); (q'.pos, row) == if Steps(q, op) then Step(q.n, q.pos) else (q.pos, None)
  {
  }

  lemma StepModulus(n: nat, pos: nat, total: nat)
    requires n > 0 && pos <= n && pos % n == total % n
    ensures var (pos', row) := Step(n, pos); pos' % n == (if row.Some? then total + 1 else total) % n
  {
    NextModulus(pos, total, n);
    OwnModulus(n);
    SmallModulus(0, n);
  }

  lemma NextModulus(a: nat, b: nat, n: nat)
    requires n > 0 && a % n == b % n
    ensures (a + 1) % n == (b + 1) % n
  {
    DivMod(a, n);
    DivMod(b, n);
    var r := a % n;
    if r + 1 < n {
      DivModUnique(a + 1, n, a / n, r + 1);
      DivModUnique(b + 1, n, b / n, r + 1);
    } else {
      Distribute(a / n, -1, n);
      Distribute(b / n, -1, n);
      DivModUnique(a + 1, n, a / n + 1, 0);
      DivModUnique(b + 1, n, b / n + 1, 0);
    }
  }

  lemma OwnModulus(n: nat)
    requires n > 0
    ensures n % n == 0
  {
    DivModUnique(n, n, 1, 0);
  }

  lemma SmallModulus(k: nat, n: nat)
    requires k < n
    ensures k % n == k
  {
  }

  /** The number of rows delivered since the start or since the last call that found no further row. */
  function SinceEnd(q: Query, ops: seq<Op>): nat
    requires q.pos <= q.n
    decreases |ops|
  {
    if ops == [] then 0
    else
      var before, op := ops[..|ops| - 1], ops[|ops| - 1];
      if !Steps(Run(q, before), op) then SinceEnd(q, before)
      else if Do(Run(q, before), op).1.Some? then SinceEnd(q, before) + 1
      else 0
  }

  lemma {:induction false} PositionSinceEnd(q: Query, ops: seq<Op>)
    requires q.pos == 0
    ensures Run(q, ops).pos == SinceEnd(q, ops)
    decreases |ops|
  {
    if ops == [] {
    } else {
      PositionSinceEnd(q, ops[..|ops| - 1]);
    }
  }

  /**
   `reset` promises to go back to the beginning. It only clears the end flag. Whatever was done with the
   results of a new query before, the next row after a reset is the first one if and only if no row was
   delivered since the start or since a call that found the end; otherwise reading goes on where it was.
   */
  lemma ResetRestartsIff(n: nat, ops: seq<Op>, r: Rid)
    requires n > 0 && r in Run(Query(n, 0, map[]), ops).ended
    ensures var start := Query(n, 0, map[]);
            var (_, row) := Do(Run(start, ops + [Reset(r)]), Next(r));
            && (row == Some(0) <==> SinceEnd(start, ops) == 0)
            && row == if SinceEnd(start, ops) < n then Some(SinceEnd(start, ops)) else None
  {
    assert (ops + [Reset(r)])[..|ops|] == ops;
    PositionSinceEnd(Query(n, 0, map[]), ops);
  }

  /** After one of three rows was read, a reset and another read deliver the second. */
  lemma ResetMidwayContinues(r: Rid)
    ensures Delivered(Query(3, 0, map[]), [Get(r), Next(r), Reset(r), Next(r)]) == [0, 1]
  {
    var q := Query(3, 0, map[]);
    OneMore(q, [], Get(r));
    assert [] + [Get(r)] == [Get(r)];
    OneMore(q, [Get(r)], Next(r));
    assert [Get(r)] + [Next(r)] == [Get(r), Next(r)];
    OneMore(q, [Get(r), Next(r)], Reset(r));
    assert [Get(r), Next(r)] + [Reset(r)] == [Get(r), Next(r), Reset(r)];
    OneMore(q, [Get(r), Next(r), Reset(r)], Next(r));
    assert [Get(r), Next(r), Reset(r)] + [Next(r)] == [Get(r), Next(r), Reset(r), Next(r)];
  }

  lemma OneMore(q: Query, ops: seq<Op>, op: Op)
    requires q.pos <= q.n
    ensures var (q', row) := Do(Run(q, ops), op);
            && Run(q, ops + [op]) == q'
            && Delivered(q, ops + [op]) == Delivered(q, ops) + if row.Some? then [row.value] else []
  {
    assert (ops + [op])[..|ops|] == ops;
  }

  class Statement<Row(==)> {
    const rows: seq<Row>
    var pos: nat

    constructor (rows: seq<Row>)
      ensures this.rows == rows && pos == 0
    {
      this.rows, pos := rows, 0;
    }

    method StepOnce() returns (row: bool)
      requires pos <= |rows|
      modifies this
      ensures var (pos', r) := Step(|rows|, old(pos)); pos == pos' && row == r.Some?
    {
      row := pos < |rows|;
      pos := if row then pos + 1 else 0;
    }
  }

  class Result<Row(==)> {
    const statement: Statement<Row>
    var ended: bool

    ghost function Abs(): Cursor
      reads this, statement
    {
      Cursor(|statement.rows|, statement.pos, ended)
    }

    /** `get_result`: the statement stays where it is. */
    constructor (statement: Statement<Row>)
      ensures this.statement == statement && !ended
    {
      this.statement, ended := statement, false;
    }

    /** `emit_result`: the statement is stepped at once. */
    constructor Emit(statement: Statement<Row>)
      requires statement.pos <= |statement.rows|
      modifies statement
      ensures this.statement == statement
      ensures Abs() == Advanced(Cursor(|statement.rows|, old(statement.pos), false)).0
    {
      this.statement := statement;
      new;
      var row := statement.StepOnce();
      ended := !row;
    }

    /** `next_row`; the row, if any, is then the current one. */
    method NextRow() returns (row: bool)
      requires Fits(Abs())
      modifies this, statement
      ensures var (c, r) := Advanced(old(Abs()));
              Abs() == c && row == r.Some? && (row ==> statement.pos == r.value + 1)
    {
      if !ended {
        var stepped := statement.StepOnce();
        ended := !stepped;
        return !ended;
      }
      return false;
    }

    method Reset()
      modifies this
      ensures Abs() == Rewound(old(Abs()))
    {
      ended := false;
    }

    method Current() returns (row: Row)
      requires 0 < statement.pos <= |statement.rows|
      ensures row == statement.rows[statement.pos - 1]
    {
      row := statement.rows[statement.pos - 1];
    }
  }

  /** An iterator: at the end it has let go of its result. */
  class Iterator<Row(==)> {
    var result: Result?<Row>
    var end: bool

    /** The end iterator if there is no result. */
    constructor (result: Result?<Row>)
      ensures this.result == result && (end <==> result == null)
    {
      this.result, end := result, result == null;
    }

    method Advance()
      requires result != null ==> Fits(result.Abs())
      modifies this, result, if result == null then null else result.statement
      ensures old(result) == null ==> result == null && end
      ensures old(result) != null ==>
                var (c, row) := Advanced(old(result.Abs()));
                && old(result).Abs() == c && (end <==> row.None?)
                && result == (if end then null else old(result))
                && (!end ==> result.statement.pos == row.value + 1)
    {
      if result == null {
        end := true;
        return;
      }
      var more := result.NextRow();
      end := !more;
      if end {
        result := null;
      }
    }

    /** `operator==`: against an end iterator it tells whether this one has reached the end. */
    method Equals(other: Iterator<Row>) returns (same: bool)
      ensures !end && !other.end ==> (same <==> result == other.result)
      ensures end && other.end ==> same
      ensures end != other.end ==> !same
      ensures other == this ==> same
    {
      if end && other.end {
        return true;
      }
      same := result == other.result && end == other.end;
    }
  }

  class Range<Row(==)> {
    const result: Result?<Row>
    var beginCalled: bool

    /** `each` makes a range over a new result; a default range has none. */
    constructor (result: Result?<Row>)
      ensures this.result == result && !beginCalled
    {
      this.result, beginCalled := result, false;
    }

    method Begin() returns (it: Iterator<Row>)
      requires result != null ==> Fits(result.Abs())
      modifies this, result, if result == null then null else result.statement
      ensures fresh(it) && beginCalled == (old(beginCalled) || result != null)
      ensures result == null || old(beginCalled) ==> it.end && it.result == null
      ensures result != null && old(beginCalled) ==> result.Abs() == old(result.Abs())
      ensures result != null && !old(beginCalled) ==>
                var (c, row) := Advanced(old(result.Abs()));
                && result.Abs() == c && (it.end <==> row.None?) && it.result == (if it.end then null else result)
                && (!it.end ==> result.statement.pos == row.value + 1)
    {
      if beginCalled || result == null {
        it := new Iterator<Row>(null);
        return;
      }
      beginCalled := true;
      it := new Iterator<Row>(result);
      it.Advance();
    }

    /**
     `for (auto &row : range)`: delivers what is left of the rows, each once and in order, and ends with the
     statement back at its start. A second loop over the same range delivers nothing.
     */
    method Loop() returns (seen: seq<Row>)
      requires result != null ==> Fits(result.Abs())
      modifies this, result, if result == null then null else result.statement
      ensures result == null ==> seen == []
      ensures result != null && (old(beginCalled) || old(result.ended)) ==>
                seen == [] && result.Abs() == old(result.Abs())
      ensures result != null && !old(beginCalled) && !old(result.ended) ==>
                && seen == result.statement.rows[old(result.statement.pos)..]
                && result.statement.pos == 0 && result.ended && beginCalled
    {
      seen := [];
      var it := Begin();
      var last := new Iterator<Row>(null);
      var done := it.Equals(last);
      if result == null {
        return;
      }
      ghost var start, skipped := old(result.statement.pos), old(beginCalled) || old(result.ended);
      while !done
        invariant fresh(it) && fresh(last) && it != last && last.end && last.result == null
        invariant done <==> it.end
        invariant it.end ==> it.result == null
        invariant !it.end ==>
                    it.result == result && !result.ended && 0 < result.statement.pos <= |result.statement.rows|
        invariant !it.end && !skipped ==>
                    start < result.statement.pos && seen == result.statement.rows[start..result.statement.pos - 1]
        invariant it.end && !skipped ==>
                    seen == result.statement.rows[start..] && result.Abs() == Cursor(|result.statement.rows|, 0, true)
        invariant skipped ==> it.end && seen == [] && result.Abs() == old(result.Abs())
        invariant beginCalled
        decreases if it.end then 0 else 1 + |result.statement.rows| - result.statement.pos
      {
        var row := result.Current();
        seen := seen + [row];
        it.Advance();
        done := it.Equals(last);
      }
    }
  }
}
