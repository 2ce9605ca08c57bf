/**
 The pool's critical sections and the reference-counted lease. `Monitor` is what the mutex protects; each
 critical section is a function on it, and the class `ConnectionPool` does the same in place.
 */
module ConnectionPool {
  import opened Prelude

  type Conn = nat

  datatype Monitor = Monitor(capacity: nat, created: nat, idle: seq<Conn>)
  datatype Decision = TakeIdle(conn: Conn) | CreateNew | MustWait

  /** Idle connections and slots for connections not created yet. */
  function Free(m: Monitor): int {
    |m.idle| + m.capacity - m.created
  }

  /** One pass of the loop in `acquire`, under the lock. */
  function Attempt(m: Monitor): (Monitor, Decision) {
    if m.idle != [] then (m.(idle := m.idle[..|m.idle| - 1]), TakeIdle(m.idle[|m.idle| - 1]))
    else if m.created < m.capacity then (m.(created := m.created + 1), CreateNew)
    else (m, MustWait)
  }

  /** Nothing is idle and no further connection may be created. */
  predicate Exhausted(m: Monitor) {
    m.idle == [] && m.created >= m.capacity
  }

  /** What an attempt does, in the monitor's own fields. */
  lemma AttemptLaw(m: Monitor)
    ensures Attempt(m).1.MustWait? <==> Exhausted(m)
    ensures Exhausted(m) ==> Attempt(m).0 == m
    ensures m.idle != [] ==>
              Attempt(m) == (Monitor(m.capacity, m.created, m.idle[..|m.idle| - 1]), TakeIdle(m.idle[|m.idle| - 1]))
    ensures m.idle == [] && m.created < m.capacity ==>
              Attempt(m) == (Monitor(m.capacity, m.created + 1, []), CreateNew)
  {
  }

  /** The handler for a factory that throws. */
  function RolledBack(m: Monitor): Monitor
    requires m.created > 0
  {
    m.(created := m.created - 1)
  }

  function Returned(m: Monitor, conn: Conn): Monitor {
    m.(idle := m.idle + [conn])
  }

  /** Giving up one of `refs` references: how many are left, and whether the control block is destroyed. */
  function Unpinned(refs: nat): (nat, bool)
    requires refs > 0
  {
    (refs - 1, refs == 1)
  }

  /** What the factory does when it is called. */
  datatype Made = Fresh(conn: Conn) | Nothing | Throws

  /** How `acquire` ends: with a lease, with the factory's exception, or not yet. */
  datatype Acquired = Leased(lease: Lease) | Threw | StillWaiting

  class ConnectionPool {
    const capacity: nat
    var created: nat
    var idle: seq<Conn>
    /** The number of `notify_one` calls so far. */
    var signals: nat

    ghost function Abs(): Monitor
      reads this
    {
      Monitor(capacity, created, idle)
    }

    constructor (capacity: nat)
      ensures Abs() == Monitor(capacity, 0, []) && signals == 0
    {
      this.capacity, created, idle, signals := capacity, 0, [], 0;
    }

    /** The public constructor refuses an empty capacity and a missing factory. */
    static method Create(capacity: nat, hasFactory: bool) returns (pool: ConnectionPool?)
      ensures pool == null <==> capacity == 0 || !hasFactory
      ensures pool != null ==> fresh(pool) && pool.Abs() == Monitor(capacity, 0, [])
    {
      if capacity == 0 || !hasFactory {
        return null;
      }
      pool := new ConnectionPool(capacity);
    }

    /**
     The locked part of `acquire`. While the caller waits, other threads own the monitor: `wakeups` lists
     what it finds at each return from the wait. The decision is the one that the first state with
     something free calls for; if none has, the caller is still waiting.
     */
    method WaitForSlot(wakeups: seq<Monitor>) returns (decision: Decision)
      requires forall i :: 0 <= i < |wakeups| ==> wakeups[i].capacity == capacity
      modifies this`created, this`idle
      ensures decision.MustWait? ==>
                forall i :: 0 <= i <= |wakeups| ==> Attempt(([old(Abs())] + wakeups)[i]).1.MustWait?
      ensures !decision.MustWait? ==>
                exists k :: 0 <= k <= |wakeups|
                            && (Abs(), decision) == Attempt(([old(Abs())] + wakeups)[k])
                            && forall i :: 0 <= i < k ==> Attempt(([old(Abs())] + wakeups)[i]).1.MustWait?
    {
      ghost var seen := [Abs()] + wakeups;
      var next := 0;
      while true
        invariant next <= |wakeups| && Abs() == seen[next]
        invariant forall i :: 0 <= i < next ==> Attempt(seen[i]).1.MustWait?
        decreases |wakeups| - next
      {
        if idle != [] {
          decision := TakeIdle(idle[|idle| - 1]);
          idle := idle[..|idle| - 1];
          assert (Abs(), decision) == Attempt(seen[next]);
          return;
        }
        if created < capacity {
          created := created + 1;
          assert (Abs(), CreateNew) == Attempt(seen[next]);
          return CreateNew;
        }
        assert Attempt(seen[next]).1.MustWait?;
        if next == |wakeups| {
          return MustWait;
        }
        created, idle := wakeups[next].created, wakeups[next].idle;
        next := next + 1;
      }
    }

    /**
     `acquire`: waits for a slot and hands out an idle connection or a created one. The factory runs outside
     the lock, so a failing one rolls back whatever monitor `meanwhile` it finds on taking the lock again.
     */
    method Acquire(wakeups: seq<Monitor>, made: Made, meanwhile: Monitor) returns (r: Acquired)
      requires forall i :: 0 <= i < |wakeups| ==> wakeups[i].capacity == capacity
      requires meanwhile.capacity == capacity && meanwhile.created > 0
      modifies this
      ensures signals == old(signals) + (if r.Threw? then 1 else 0)
      ensures r.StillWaiting? <==>
                forall i :: 0 <= i <= |wakeups| ==> Exhausted(([old(Abs())] + wakeups)[i])
      ensures r.Leased? ==> fresh(r.lease) && r.lease.Valid()
      ensures !r.StillWaiting? ==>
                exists k :: 0 <= k <= |wakeups|
                            && !Exhausted(([old(Abs())] + wakeups)[k])
                            && (forall i :: 0 <= i < k ==> Exhausted(([old(Abs())] + wakeups)[i]))
                            && var m := ([old(Abs())] + wakeups)[k];
                            if m.idle != [] then
                              && created == m.created && idle == m.idle[..|m.idle| - 1]
                              && r.Leased? && r.lease.Holds(this, m.idle[|m.idle| - 1])
                            else if made.Throws? then
                              && r.Threw? && created == meanwhile.created - 1 && idle == meanwhile.idle
                            else
                              && created == m.created + 1 && idle == []
                              && r.Leased? && (made.Nothing? ==> r.lease.state == null && r.lease.connection == null)
                              && (made.Fresh? ==> r.lease.Holds(this, made.conn))
    {
      ghost var seen := [Abs()] + wakeups;
      var decision := WaitForSlot(wakeups);
      if decision.MustWait? {
        assert forall i :: 0 <= i <= |wakeups| ==> Attempt(seen[i]).1.MustWait?;
        return StillWaiting;
      }
      ghost var k :| 0 <= k <= |wakeups| && (Abs(), decision) == Attempt(seen[k])
                     && forall i :: 0 <= i < k ==> Attempt(seen[i]).1.MustWait?;
      AttemptLaw(seen[k]);
      r := HandOut(decision, made, meanwhile);
      assert !Exhausted(seen[k]);
    }

    /** The rest of `acquire`, after the lock was given up. */
    method HandOut(decision: Decision, made: Made, meanwhile: Monitor) returns (r: Acquired)
      requires !decision.MustWait? && meanwhile.capacity == capacity && meanwhile.created > 0
      modifies this
      ensures r.Threw? <==> decision.CreateNew? && made.Throws?
      ensures r.Threw? ==> created == meanwhile.created - 1 && idle == meanwhile.idle && signals == old(signals) + 1
      ensures !r.Threw? ==> created == old(created) && idle == old(idle) && signals == old(signals)
      ensures !r.Threw? ==> r.Leased? && fresh(r.lease) && r.lease.Valid()
      ensures decision.TakeIdle? ==> r.Leased? && r.lease.Holds(this, decision.conn)
      ensures decision.CreateNew? && made.Fresh? ==> r.Leased? && r.lease.Holds(this, made.conn)
      ensures decision.CreateNew? && made.Nothing? ==> r.Leased? && r.lease.state == null && r.lease.connection == null
    {
      var conn := if decision.TakeIdle? then Some(decision.conn) else None;
      if decision.CreateNew? {
        if made.Throws? {
          created, idle := meanwhile.created, meanwhile.idle;
          RollBackCreation();
          return Threw;
        }
        conn := if made.Fresh? then Some(made.conn) else None;
      }
      var lease := new Lease(this, conn);
      r := Leased(lease);
    }

    method RollBackCreation()
      requires created > 0
      modifies this
      ensures Abs() == RolledBack(old(Abs())) && signals == old(signals) + 1
    {
      created := created - 1;
      signals := signals + 1;
    }

    method Release(conn: Conn)
      modifies this
      ensures Abs() == Returned(old(Abs()), conn) && signals == old(signals) + 1
    {
      idle := idle + [conn];
      signals := signals + 1;
    }
  }

  /** A pointer into a control block: one of the two in a lease, or one obtained from `shared()`. */
  datatype Pin = StateOf(lease: Lease) | ConnectionOf(lease: Lease) | Aliased(alias: Alias)
  {
    ghost function Target(): SharedState?
      reads Owner()
    {
      match this
      case StateOf(lease) => lease.state
      case ConnectionOf(lease) => lease.connection
      case Aliased(alias) => alias.target
    }

    ghost function Owner(): object {
      if Aliased? then alias else lease
    }
  }

  /** The control block that a lease and the pointers obtained from it share; `pins` are those pointers. */
  class SharedState {
    const pool: ConnectionPool
    const resource: Conn
    var refs: nat
    ghost var pins: set<Pin>

    ghost function Owners(): set<object>
      reads this
    {
      set pin | pin in pins :: pin.Owner()
    }

    /** The count is the number of pointers that point here. */
    ghost predicate Counted()
      reads this, Owners()
    {
      refs == |pins| && forall pin :: pin in pins ==> pin.Target() == this
    }

    constructor (pool: ConnectionPool, resource: Conn)
      ensures this.pool == pool && this.resource == resource && refs == 0 && pins == {}
    {
      this.pool, this.resource, refs, pins := pool, resource, 0, {};
    }

    /** A copy of a pointer. */
    method Add(ghost pin: Pin)
      requires Counted() && pin !in pins && pin.Target() == this
      modifies this
      ensures Counted() && pins == old(pins) + {pin} && refs == old(refs) + 1
    {
      refs := refs + 1;
      pins := pins + {pin};
    }

    /** The end of a pointer; the last one returns the connection to the pool. */
    method Drop(ghost pin: Pin)
      requires Counted() && pin in pins
      modifies this, pool
      ensures Counted() && pins == old(pins) - {pin}
      ensures var (left, destroyed) := Unpinned(old(refs));
              && refs == left && (destroyed <==> pins == {})
              && pool.Abs() == (if destroyed then Returned(old(pool.Abs()), resource) else old(pool.Abs()))
              && pool.signals == old(pool.signals) + (if destroyed then 1 else 0)
    {
      refs := refs - 1;
      pins := pins - {pin};
      if refs == 0 {
        pool.Release(resource);
      }
    }
  }

  class Alias {
    var target: SharedState?

    ghost predicate Valid()
      reads this, target, if target == null then {} else target.Owners()
    {
      target != null ==> target.Counted() && Aliased(this) in target.pins
    }

    constructor ()
      ensures target == null
    {
      target := null;
    }

    /** Resetting the pointer returns the connection exactly if nothing else points into its control block. */
    method Reset()
      requires Valid()
      modifies this, target, if target == null then {} else {target.pool}
      ensures target == null
      ensures old(target) != null ==>
                && old(target).Counted() && old(target).pins == old(target.pins) - {Aliased(this)}
                && old(target).pool.Abs() ==
                   if old(target.pins) == {Aliased(this)} then Returned(old(target.pool.Abs()), old(target).resource)
                   else old(target.pool.Abs())
    {
      if target != null {
        target.Drop(Aliased(this));
      }
      target := null;
    }
  }

  class Lease {
    var state: SharedState?
    var connection: SharedState?

    /** A lease has two pointers into one control block, or is empty. */
    ghost predicate Valid()
      reads this, state, if state == null then {} else state.Owners()
    {
      && connection == state
      && (state != null ==> state.Counted() && Own() <= state.pins)
    }

    /** The only two pointers into a control block that keeps this connection out of this pool. */
    ghost predicate Holds(pool: ConnectionPool, conn: Conn)
      reads this, state
    {
      && state != null && connection == state && state.pool == pool && state.resource == conn
      && state.refs == 2 && state.pins == {StateOf(this), ConnectionOf(this)}
    }

    ghost function Own(): set<Pin> {
      {StateOf(this), ConnectionOf(this)}
    }

    constructor (pool: ConnectionPool?, conn: Option<Conn>)
      ensures Valid()
      ensures state == null <==> pool == null || conn.None?
      ensures state != null ==>
                && fresh(state) && state.pool == pool && state.resource == conn.value
                && state.pins == Own() && state.refs == 2
    {
      state, connection := null, null;
      new;
      if pool != null && conn.Some? {
        state := new SharedState(pool, conn.value);
        state.Add(StateOf(this));
        connection := state;
        connection.Add(ConnectionOf(this));
      }
    }

    /** Empties the lease; its connection goes idle now exactly if nothing else points into the control block. */
    method Release()
      requires Valid()
      modifies this, state, if state == null then {} else {state.pool}
      ensures state == null && connection == null
      ensures old(state) != null ==> this !in old(state).Owners()
      ensures old(state) != null ==>
                && old(state).Counted() && old(state).pins == old(state.pins) - Own()
                && old(state).pool.Abs() ==
                   if old(state.pins) == Own() then Returned(old(state.pool.Abs()), old(state).resource)
                   else old(state.pool.Abs())
    {
      if connection != null {
        connection.Drop(ConnectionOf(this));
      }
      connection := null;
      if state != null {
        state.Drop(StateOf(this));
      }
      state := null;
    }

    /** The pointers of `from` into its control block become this lease's; their number stays. */
    method TakeOver(from: Lease)
      requires this != from && state == null && connection == null && from.Valid()
      modifies this, from, if from.state == null then {} else {from.state}
      ensures Valid() && state == old(from.state) && from.state == null && from.connection == null
      ensures state != null ==> state.pins == old(from.state.pins) - from.Own() + Own()
      ensures state != null ==> state.refs == old(from.state.refs)
    {
      state, connection := from.state, from.connection;
      from.state, from.connection := null, null;
      if state != null {
        ghost var others := state.pins - from.Own();
        assert state.pins == others + from.Own() && |state.pins| == |others| + 2;
        assert |others + Own()| == |others| + 2;
        state.pins := others + Own();
      }
    }

    /** Move assignment: what this lease held is given up first, then `other`'s hold is taken over. */
    method MoveAssign(other: Lease)
      requires Valid() && other.Valid()
      modifies this, other, state, other.state, if state == null then {} else {state.pool}
      ensures Valid()
      ensures other == this ==> state == old(state) && (state != null ==> state.pins == old(state.pins))
      ensures other != this ==> state == old(other.state) && other.state == null && other.connection == null
      ensures other != this && state != null ==> state.pins == old(other.state.pins) - other.Own() + Own()
      ensures other != this && old(state) != null && old(state) != old(other.state) ==>
                old(state).Counted() && old(state).pins == old(state.pins) - Own()
      ensures old(state) != null ==>
                old(state).pool.Abs() ==
                if other != this && old(state.pins) == Own() then Returned(old(state.pool.Abs()), old(state).resource)
                else old(state.pool.Abs())
    {
      if this != other {
        ghost var mine, theirs := state, other.state;
        assert theirs != null && theirs != mine ==> this !in theirs.Owners();
        Release();
        assert mine != null && mine != theirs ==> other !in mine.Owners();
        TakeOver(other);
      }
    }

    /** A pointer to the connection that keeps it out of the pool for as long as the pointer lives. */
    method Shared() returns (alias: Alias)
      requires Valid()
      modifies state
      ensures Valid() && fresh(alias) && alias.Valid() && alias.target == connection && state == old(state)
      ensures state != null ==> state.pins == old(state.pins) + {Aliased(alias)} && state.refs == old(state.refs) + 1
    {
      alias := new Alias();
      if connection != null {
        alias.target := connection;
        connection.Add(Aliased(alias));
      }
    }
  }
}
