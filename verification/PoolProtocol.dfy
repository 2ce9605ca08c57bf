/**
 The connection pool as a transition system: any number of threads, each at one point of `acquire` or of
 giving a lease back, with the scheduler free to interleave them. Critical sections are atomic; the factory
 runs outside the lock and may throw or return nothing; waiting threads may wake without being notified.
 An event that is not possible in a state leaves the state as it is.
 */
module PoolProtocol {
  import opened Prelude
  import opened ConnectionPool

  type Tid = nat
  type Gid = nat
  type Hid = nat

  /** Where a thread is. `Ready` threads are outside the pool's code. */
  datatype Pc = Ready | Sleeping | Woken | Creating | HandingOver(conn: Conn) | Returning(conn: Conn)

  /** A lease, with its two pointers into a control block, or a pointer obtained from `shared()`. */
  datatype Holder = Lease(state: Option<Gid>, connection: Option<Gid>) | Alias(connection: Option<Gid>)
  {
    predicate RefersTo(g: Gid) {
      connection == Some(g) || (Lease? && state == Some(g))
    }

    predicate Empty() {
      connection.None? && (Lease? ==> state.None?)
    }

    /** How many of its pointers point into `g`. */
    function Points(g: Gid): nat {
      (if connection == Some(g) then 1 else 0) + (if LeaseOf(this) == Some(g) then 1 else 0)
    }
  }

  /** The control block that a lease, as opposed to a shared pointer, refers to. */
  function LeaseOf(holder: Holder): Option<Gid> {
    if holder.Lease? then holder.state else None
  }

  /**
   `groups` are the live control blocks with the connection each keeps out of the pool, and `refs` are their
   reference counts; `returned` logs the control blocks destroyed, in order; `lost` counts the slots given up
   because the factory returned nothing.
   */
  datatype State = State(
    m: Monitor, threads: map<Tid, Pc>, groups: map<Gid, Conn>, refs: map<Gid, nat>, holders: map<Hid, Holder>,
    nextConn: Conn, nextGroup: Gid, lost: nat, returned: seq<Gid>)

  /**
   Destroying a lease is `ResetConnection`, `ResetState`, `Remove`; move assignment is the two resets of the
   target and a `Move`. Other threads may act in between.
   */
  datatype Event =
    | Enter(t: Tid) | SpuriousWake(t: Tid)
    | FactoryReturns(t: Tid) | FactoryReturnsNothing(t: Tid) | FactoryThrows(t: Tid, wake: Tid)
    | BuildLease(t: Tid, h: Hid)
    | Move(from: Hid, to: Hid) | Share(from: Hid, to: Hid)
    | ResetConnection(t: Tid, h: Hid) | ResetState(t: Tid, h: Hid) | Remove(h: Hid)
    | Return(t: Tid, wake: Tid)

  const EMPTY: Holder := Lease(None, None)

  predicate IsSleeping(pc: Pc) { pc.Sleeping? }
  predicate IsWoken(pc: Pc) { pc.Woken? }

  /** The thread has a slot that is neither idle nor leased. */
  predicate IsBusy(pc: Pc) { pc.Creating? || pc.HandingOver? || pc.Returning? }

  predicate Is(s: State, t: Tid, pc: Pc) {
    t in s.threads && s.threads[t] == pc
  }

  /** `notify_one` wakes a waiting thread of the scheduler's choice, if there is one. */
  predicate CanNotify(threads: map<Tid, Pc>, wake: Tid) {
    (wake in threads && threads[wake].Sleeping?) || forall t :: t in threads ==> !threads[t].Sleeping?
  }

  function Notify(threads: map<Tid, Pc>, wake: Tid): map<Tid, Pc> {
    if wake in threads && threads[wake].Sleeping? then threads[wake := Woken] else threads
  }

  /** Thread `t` gives up one pointer into `g`; the last one destroys the control block. */
  function DropPointer(s: State, t: Tid, g: Option<Gid>): State {
    if g.None? || g.value !in s.groups || g.value !in s.refs || s.refs[g.value] == 0 then s
    else
      var (left, destroyed) := Unpinned(s.refs[g.value]);
      if destroyed then
        s.(groups := s.groups - {g.value}, refs := s.refs - {g.value},
           threads := s.threads[t := Returning(s.groups[g.value])], returned := s.returned + [g.value])
      else s.(refs := s.refs[g.value := left])
  }

  function CopyPointer(s: State, g: Option<Gid>): State {
    if g.Some? && g.value in s.refs then s.(refs := s.refs[g.value := s.refs[g.value] + 1]) else s
  }

  ghost function Apply(s: State, e: Event): State {
    match e
    case Enter(t) =>
      if Is(s, t, Ready) || Is(s, t, Woken) then
        var (m, d) := Attempt(s.m);
        s.(m := m, threads := s.threads[t := match d
                                             case TakeIdle(c) => HandingOver(c)
                                             case CreateNew => Creating
                                             case MustWait => Sleeping])
      else s
    case SpuriousWake(t) => if Is(s, t, Sleeping) then s.(threads := s.threads[t := Woken]) else s
    case FactoryReturns(t) =>
      if Is(s, t, Creating) then
        s.(threads := s.threads[t := HandingOver(s.nextConn)], nextConn := s.nextConn + 1)
      else s
    case FactoryReturnsNothing(t) =>
      if Is(s, t, Creating) then s.(threads := s.threads[t := Ready], lost := s.lost + 1) else s
    case FactoryThrows(t, wake) =>
      if Is(s, t, Creating) && s.m.created > 0 && CanNotify(s.threads, wake) then
        s.(m := RolledBack(s.m), threads := Notify(s.threads[t := Ready], wake))
      else s
    case BuildLease(t, h) =>
      if t in s.threads && s.threads[t].HandingOver? && h !in s.holders then
        s.(threads := s.threads[t := Ready], groups := s.groups[s.nextGroup := s.threads[t].conn],
           refs := s.refs[s.nextGroup := 2], holders := s.holders[h := Lease(Some(s.nextGroup), Some(s.nextGroup))],
           nextGroup := s.nextGroup + 1)
      else s
    case Move(from, to) =>
      if CanMove(s.holders, from, to) then s.(holders := s.holders[to := s.holders[from]][from := EMPTY]) else s
    case Share(from, to) =>
      if from in s.holders && to !in s.holders then
        var copied := CopyPointer(s, s.holders[from].connection);
        copied.(holders := s.holders[to := Alias(s.holders[from].connection)])
      else s
    case ResetConnection(t, h) =>
      if Is(s, t, Ready) && h in s.holders then
        DropPointer(s.(holders := s.holders[h := s.holders[h].(connection := None)]), t, s.holders[h].connection)
      else s
    case ResetState(t, h) =>
      if Is(s, t, Ready) && h in s.holders && s.holders[h].Lease? && s.holders[h].connection.None? then
        DropPointer(s.(holders := s.holders[h := EMPTY]), t, s.holders[h].state)
      else s
    case Remove(h) => if h in s.holders && s.holders[h].Empty() then s.(holders := s.holders - {h}) else s
    case Return(t, wake) =>
      if t in s.threads && s.threads[t].Returning? && CanNotify(s.threads, wake) then
        s.(m := Returned(s.m, s.threads[t].conn), threads := Notify(s.threads[t := Ready], wake))
      else s
  }

  /** Moving a lease: into a new one, or into one that was emptied before. */
  predicate CanMove(holders: map<Hid, Holder>, from: Hid, to: Hid) {
    from in holders && holders[from].Lease? && from != to && (to in holders ==> holders[to] == EMPTY)
  }

  ghost function Start(capacity: nat, threads: set<Tid>): State {
    State(Monitor(capacity, 0, []), map t | t in threads :: Ready, map[], map[], map[], 0, 0, 0, [])
  }

  ghost function Run(s: State, es: seq<Event>): State {
    if es == [] then s else Apply(Run(s, es[..|es| - 1]), es[|es| - 1])
  }

  // ----- Accounting and wakeups -----

  /** Connections that are leased or in a thread's hands. */
  ghost function InUse(s: State): nat {
    |s.groups| + Count(s.threads, IsBusy)
  }

  ghost predicate Accounted(s: State) {
    s.m.created == |s.m.idle| + InUse(s) + s.lost && s.m.created <= s.m.capacity
  }

  /** While anybody sleeps, no more is free than woken threads are on their way to take. */
  ghost predicate NoLostWakeup(s: State) {
    Count(s.threads, IsSleeping) > 0 ==> Free(s.m) <= Count(s.threads, IsWoken)
  }

  lemma Retag(threads: map<Tid, Pc>, t: Tid, pc: Pc)
    requires t in threads
    ensures Count(threads[t := pc], IsBusy) ==
            Count(threads, IsBusy) - (if IsBusy(threads[t]) then 1 else 0) + (if IsBusy(pc) then 1 else 0)
    ensures Count(threads[t := pc], IsSleeping) ==
            Count(threads, IsSleeping) - (if threads[t].Sleeping? then 1 else 0) + (if pc.Sleeping? then 1 else 0)
    ensures Count(threads[t := pc], IsWoken) ==
            Count(threads, IsWoken) - (if threads[t].Woken? then 1 else 0) + (if pc.Woken? then 1 else 0)
  {
    CountUpdate(threads, IsBusy, t, pc);
    CountUpdate(threads, IsSleeping, t, pc);
    CountUpdate(threads, IsWoken, t, pc);
  }

  /** A notification moves one sleeper, if there is one, to the woken threads. */
  lemma Notified(threads: map<Tid, Pc>, wake: Tid)
    requires CanNotify(threads, wake)
    ensures var after := Notify(threads, wake);
            && Count(after, IsBusy) == Count(threads, IsBusy)
            && (Count(threads, IsSleeping) > 0 ==>
                  && Count(after, IsSleeping) == Count(threads, IsSleeping) - 1
                  && Count(after, IsWoken) == Count(threads, IsWoken) + 1)
            && (Count(threads, IsSleeping) == 0 ==> after == threads)
  {
    CountPositive(threads, IsSleeping);
    if wake in threads {
      Retag(threads, wake, Woken);
    }
  }

  /** The counts after a pointer is dropped: at most, one group less and one busy thread more. */
  lemma DropCounts(s: State, t: Tid, g: Option<Gid>)
    requires Is(s, t, Ready)
    ensures var s' := DropPointer(s, t, g);
            && s'.m == s.m && s'.lost == s.lost && InUse(s') == InUse(s)
            && Count(s'.threads, IsSleeping) == Count(s.threads, IsSleeping)
            && Count(s'.threads, IsWoken) == Count(s.threads, IsWoken)
  {
    if s.groups != DropPointer(s, t, g).groups {
      Retag(s.threads, t, Returning(s.groups[g.value]));
      ShrunkMap(s.groups, g.value);
    }
  }

  ghost predicate Balanced(s: State) {
    Accounted(s) && NoLostWakeup(s)
  }

  lemma EnterBalanced(s: State, t: Tid)
    requires Balanced(s)
    ensures Balanced(Apply(s, Enter(t)))
  {
    if Apply(s, Enter(t)) != s {
      Retag(s.threads, t, Apply(s, Enter(t)).threads[t]);
    }
  }

  /** The three events that change one thread and no slot that is idle or free. */
  lemma TagBalanced(s: State, e: Event)
    requires Balanced(s) && (e.SpuriousWake? || e.FactoryReturns? || e.FactoryReturnsNothing?)
    ensures Balanced(Apply(s, e))
  {
    if Apply(s, e) != s {
      Retag(s.threads, e.t, Apply(s, e).threads[e.t]);
    }
  }

  /** A failed creation frees its slot and a returned connection goes idle; both notify. */
  lemma NotifyBalanced(s: State, e: Event)
    requires Balanced(s) && (e.FactoryThrows? || e.Return?)
    ensures Balanced(Apply(s, e))
  {
    if Apply(s, e) != s {
      Retag(s.threads, e.t, Ready);
      StillNotifiable(s.threads, e.t, e.wake);
      Notified(s.threads[e.t := Ready], e.wake);
    }
  }

  lemma BuildBalanced(s: State, t: Tid, h: Hid)
    requires Balanced(s) && s.nextGroup !in s.groups
    ensures Balanced(Apply(s, BuildLease(t, h)))
  {
    var s' := Apply(s, BuildLease(t, h));
    if s' != s {
      Retag(s.threads, t, Ready);
      GrownMap(s.groups, s.nextGroup, s.threads[t].conn);
    }
  }

  lemma LeaseBalanced(s: State, e: Event)
    requires Balanced(s) && (e.Move? || e.Share? || e.ResetConnection? || e.ResetState? || e.Remove?)
    ensures Balanced(Apply(s, e))
  {
    match e {
      case ResetConnection(t, h) =>
        if Apply(s, e) != s {
          DropCounts(s.(holders := s.holders[h := s.holders[h].(connection := None)]), t, s.holders[h].connection);
        }
      case ResetState(t, h) =>
        if Apply(s, e) != s {
          DropCounts(s.(holders := s.holders[h := EMPTY]), t, s.holders[h].state);
        }
      case _ =>
    }
  }

  /** Every event keeps the books and loses no wakeup. */
  lemma BalanceKept(s: State, e: Event)
    requires Balanced(s) && s.nextGroup !in s.groups
    ensures Balanced(Apply(s, e))
  {
    match e {
      case Enter(t) => EnterBalanced(s, t);
      case FactoryThrows(_, _) => NotifyBalanced(s, e);
      case Return(_, _) => NotifyBalanced(s, e);
      case BuildLease(t, h) => BuildBalanced(s, t, h);
      case SpuriousWake(_) => TagBalanced(s, e);
      case FactoryReturns(_) => TagBalanced(s, e);
      case FactoryReturnsNothing(_) => TagBalanced(s, e);
      case _ => LeaseBalanced(s, e);
    }
  }

  lemma StillNotifiable(threads: map<Tid, Pc>, t: Tid, wake: Tid)
    requires t in threads && !threads[t].Sleeping? && CanNotify(threads, wake)
    ensures CanNotify(threads[t := Ready], wake)
  {
  }

  // ----- Exclusion: where each connection is -----

  datatype Place = IdleAt(i: nat) | InGroup(g: Gid) | WithThread(t: Tid)

  ghost predicate Holds(s: State, p: Place, c: Conn) {
    match p
    case IdleAt(i) => i < |s.m.idle| && s.m.idle[i] == c
    case InGroup(g) => g in s.groups && s.groups[g] == c
    case WithThread(t) => t in s.threads && (s.threads[t] == HandingOver(c) || s.threads[t] == Returning(c))
  }

  ghost predicate Placed(s: State, c: Conn) {
    exists p :: Holds(s, p, c)
  }

  /** Every connection ever created is in exactly one place. */
  ghost predicate Exclusive(s: State) {
    && (forall p, q, c: Conn :: Holds(s, p, c) && Holds(s, q, c) ==> p == q)
    && (forall p, c: Conn :: Holds(s, p, c) ==> c < s.nextConn)
    && (forall c: Conn :: c < s.nextConn ==> Placed(s, c))
  }

  /** `s'` has the connection `c` in place `q` instead of `p`, and all others where `s` has them. */
  ghost predicate Transfers(s: State, s': State, p: Place, q: Place, c: Conn) {
    && s'.nextConn == s.nextConn && Holds(s, p, c)
    && forall r, d: Conn :: Holds(s', r, d) <==> (r == q && d == c) || (r != p && Holds(s, r, d))
  }

  lemma TransferExclusive(s: State, s': State, p: Place, q: Place, c: Conn)
    requires Exclusive(s) && Transfers(s, s', p, q, c)
    ensures Exclusive(s')
  {
    forall d: Conn | d < s'.nextConn ensures Placed(s', d) {
      assert Placed(s, d);
      var r :| Holds(s, r, d);
      assert Holds(s', if d == c then q else r, d);
    }
  }

  ghost predicate SamePlaces(s: State, s': State) {
    s'.nextConn == s.nextConn && forall r, d: Conn :: Holds(s', r, d) <==> Holds(s, r, d)
  }

  lemma SameExclusive(s: State, s': State)
    requires Exclusive(s) && SamePlaces(s, s')
    ensures Exclusive(s')
  {
    forall d: Conn | d < s'.nextConn ensures Placed(s', d) {
      assert Placed(s, d);
      var r :| Holds(s, r, d);
      assert Holds(s', r, d);
    }
  }

  lemma EnterExclusive(s: State, t: Tid)
    requires Exclusive(s)
    ensures Exclusive(Apply(s, Enter(t)))
  {
    var s' := Apply(s, Enter(t));
    if s' != s {
      if s.m.idle != [] {
        var n := |s.m.idle| - 1;
        assert Holds(s, IdleAt(n), s.m.idle[n]);
        assert Transfers(s, s', IdleAt(n), WithThread(t), s.m.idle[n]);
        TransferExclusive(s, s', IdleAt(n), WithThread(t), s.m.idle[n]);
      } else {
        assert SamePlaces(s, s');
        SameExclusive(s, s');
      }
    }
  }

  lemma FactoryExclusive(s: State, t: Tid)
    requires Exclusive(s)
    ensures Exclusive(Apply(s, FactoryReturns(t)))
  {
    var s' := Apply(s, FactoryReturns(t));
    if s' != s {
      assert forall r, d: Conn :: Holds(s', r, d) <==> (r == WithThread(t) && d == s.nextConn) || Holds(s, r, d);
      forall d: Conn | d < s'.nextConn ensures Placed(s', d) {
        if d < s.nextConn {
          assert Placed(s, d);
          var r :| Holds(s, r, d);
          assert Holds(s', r, d);
        } else {
          assert Holds(s', WithThread(t), d);
        }
      }
    }
  }

  /** Waking or tagging threads that hold nothing moves no connection. */
  lemma TagExclusive(s: State, e: Event)
    requires Exclusive(s)
    requires e.SpuriousWake? || e.FactoryReturnsNothing? || e.FactoryThrows? || e.Move? || e.Share? || e.Remove?
    ensures Exclusive(Apply(s, e))
  {
    assert SamePlaces(s, Apply(s, e));
    SameExclusive(s, Apply(s, e));
  }

  lemma ReturnExclusive(s: State, t: Tid, wake: Tid)
    requires Exclusive(s)
    ensures Exclusive(Apply(s, Return(t, wake)))
  {
    var s' := Apply(s, Return(t, wake));
    if s' != s {
      var c := s.threads[t].conn;
      assert Holds(s, WithThread(t), c);
      assert Transfers(s, s', WithThread(t), IdleAt(|s.m.idle|), c);
      TransferExclusive(s, s', WithThread(t), IdleAt(|s.m.idle|), c);
    }
  }

  lemma BuildExclusive(s: State, t: Tid, h: Hid)
    requires Exclusive(s) && s.nextGroup !in s.groups
    ensures Exclusive(Apply(s, BuildLease(t, h)))
  {
    var s' := Apply(s, BuildLease(t, h));
    if s' != s {
      var c := s.threads[t].conn;
      assert Holds(s, WithThread(t), c);
      assert Transfers(s, s', WithThread(t), InGroup(s.nextGroup), c);
      TransferExclusive(s, s', WithThread(t), InGroup(s.nextGroup), c);
    }
  }

  lemma DropExclusive(s: State, t: Tid, g: Option<Gid>)
    requires Exclusive(s) && Is(s, t, Ready)
    ensures Exclusive(DropPointer(s, t, g))
  {
    var s' := DropPointer(s, t, g);
    if s'.groups != s.groups {
      var c := s.groups[g.value];
      assert Holds(s, InGroup(g.value), c);
      assert Transfers(s, s', InGroup(g.value), WithThread(t), c);
      TransferExclusive(s, s', InGroup(g.value), WithThread(t), c);
    } else {
      assert SamePlaces(s, s');
      SameExclusive(s, s');
    }
  }

  lemma ResetExclusive(s: State, e: Event)
    requires Exclusive(s) && (e.ResetConnection? || e.ResetState?)
    ensures Exclusive(Apply(s, e))
  {
    if Apply(s, e) != s {
      var holder := s.holders[e.h];
      var emptied := s.(holders := s.holders[e.h := if e.ResetState? then EMPTY else holder.(connection := None)]);
      assert SamePlaces(s, emptied);
      SameExclusive(s, emptied);
      DropExclusive(emptied, e.t, if e.ResetState? then holder.state else holder.connection);
    }
  }

  lemma ExclusiveKept(s: State, e: Event)
    requires Exclusive(s) && s.nextGroup !in s.groups
    ensures Exclusive(Apply(s, e))
  {
    match e {
      case Enter(t) => EnterExclusive(s, t);
      case FactoryReturns(t) => FactoryExclusive(s, t);
      case BuildLease(t, h) => BuildExclusive(s, t, h);
      case ResetConnection(_, _) => ResetExclusive(s, e);
      case ResetState(_, _) => ResetExclusive(s, e);
      case Return(t, wake) => ReturnExclusive(s, t, wake);
      case _ => TagExclusive(s, e);
    }
  }

  // ----- Reference counts -----

  function ConnectsTo(g: Gid): Holder -> bool {
    (holder: Holder) => holder.connection == Some(g)
  }

  function LeasesTo(g: Gid): Holder -> bool {
    (holder: Holder) => LeaseOf(holder) == Some(g)
  }

  /** The number of pointers into `g`: those in leases and those obtained from `shared()`. */
  ghost function Pointers(holders: map<Hid, Holder>, g: Gid): nat {
    Count(holders, ConnectsTo(g)) + Count(holders, LeasesTo(g))
  }

  ghost predicate Referenced(holders: map<Hid, Holder>, g: Gid) {
    exists h :: h in holders && holders[h].RefersTo(g)
  }

  lemma ReferencedIff(holders: map<Hid, Holder>, g: Gid)
    ensures Referenced(holders, g) <==> Pointers(holders, g) > 0
  {
    CountPositive(holders, ConnectsTo(g));
    CountPositive(holders, LeasesTo(g));
    if h :| h in holders && holders[h].RefersTo(g) {
      assert ConnectsTo(g)(holders[h]) || LeasesTo(g)(holders[h]);
    }
  }

  lemma PointersUpdate(holders: map<Hid, Holder>, h: Hid, holder: Holder, g: Gid)
    ensures Pointers(holders[h := holder], g) ==
            Pointers(holders, g) - (if h in holders then holders[h].Points(g) else 0) + holder.Points(g)
  {
    CountUpdate(holders, ConnectsTo(g), h, holder);
    CountUpdate(holders, LeasesTo(g), h, holder);
  }

  lemma PointersRemoved(holders: map<Hid, Holder>, h: Hid, g: Gid)
    requires h in holders
    ensures Pointers(holders - {h}, g) == Pointers(holders, g) - holders[h].Points(g)
  {
    CountRemove(holders, ConnectsTo(g), h);
    CountRemove(holders, LeasesTo(g), h);
  }

  function RefsOf(s: State, g: Gid): nat {
    if g in s.refs then s.refs[g] else 0
  }

  /** Every control block has as many references as there are pointers into it, and is alive while it has any. */
  ghost predicate Counted(s: State) {
    && s.refs.Keys == s.groups.Keys
    && (forall g :: g in s.refs ==> s.refs[g] > 0)
    && (forall g: Gid :: Pointers(s.holders, g) == RefsOf(s, g))
  }

  /** `Counted` up to one reference too many for `gone`, whose pointer is being dropped. */
  ghost predicate CountedBut(s: State, gone: Option<Gid>) {
    && s.refs.Keys == s.groups.Keys
    && (forall g :: g in s.refs ==> s.refs[g] > 0)
    && (forall g: Gid :: Pointers(s.holders, g) + (if gone == Some(g) then 1 else 0) == RefsOf(s, g))
  }

  lemma DropCounted(s: State, t: Tid, gone: Option<Gid>)
    requires CountedBut(s, gone)
    ensures Counted(DropPointer(s, t, gone))
  {
    if gone.Some? {
      assert Pointers(s.holders, gone.value) == RefsOf(s, gone.value) - 1;
    }
  }

  lemma ResetCounted(s: State, e: Event)
    requires Counted(s) && (e.ResetConnection? || e.ResetState?)
    ensures Counted(Apply(s, e))
  {
    if Apply(s, e) != s {
      var holder := s.holders[e.h];
      var emptied := if e.ResetState? then EMPTY else holder.(connection := None);
      var gone := if e.ResetState? then holder.state else holder.connection;
      forall g: Gid
        ensures Pointers(s.holders[e.h := emptied], g) + (if gone == Some(g) then 1 else 0) == RefsOf(s, g)
      {
        PointersUpdate(s.holders, e.h, emptied, g);
      }
      DropCounted(s.(holders := s.holders[e.h := emptied]), e.t, gone);
    }
  }

  lemma MoveCounted(s: State, from: Hid, to: Hid)
    requires Counted(s)
    ensures Counted(Apply(s, Move(from, to)))
  {
    if CanMove(s.holders, from, to) {
      var s' := Apply(s, Move(from, to));
      forall g: Gid ensures Pointers(s'.holders, g) == RefsOf(s', g) {
        PointersUpdate(s.holders, to, s.holders[from], g);
        PointersUpdate(s.holders[to := s.holders[from]], from, EMPTY, g);
      }
    }
  }

  lemma ShareCounted(s: State, from: Hid, to: Hid)
    requires Counted(s)
    ensures Counted(Apply(s, Share(from, to)))
  {
    if from in s.holders && to !in s.holders {
      var s' := Apply(s, Share(from, to));
      forall g: Gid ensures Pointers(s'.holders, g) == RefsOf(s', g) {
        PointersUpdate(s.holders, to, Alias(s.holders[from].connection), g);
        ReferencedIff(s.holders, g);
      }
    }
  }

  lemma BuildCounted(s: State, t: Tid, h: Hid)
    requires Counted(s) && s.nextGroup !in s.groups
    ensures Counted(Apply(s, BuildLease(t, h)))
  {
    var s' := Apply(s, BuildLease(t, h));
    if s' != s {
      forall g: Gid ensures Pointers(s'.holders, g) == RefsOf(s', g) {
        PointersUpdate(s.holders, h, Lease(Some(s.nextGroup), Some(s.nextGroup)), g);
      }
    }
  }

  lemma RemoveCounted(s: State, h: Hid)
    requires Counted(s)
    ensures Counted(Apply(s, Remove(h)))
  {
    if Apply(s, Remove(h)) != s {
      forall g: Gid ensures Pointers(s.holders - {h}, g) == Pointers(s.holders, g) {
        PointersRemoved(s.holders, h, g);
      }
    }
  }

  /** Every event changes a reference count by the pointers it makes or drops. */
  lemma CountedKept(s: State, e: Event)
    requires Counted(s) && s.nextGroup !in s.groups
    ensures Counted(Apply(s, e))
  {
    match e {
      case BuildLease(t, h) => BuildCounted(s, t, h);
      case Move(from, to) => MoveCounted(s, from, to);
      case Share(from, to) => ShareCounted(s, from, to);
      case ResetConnection(_, _) => ResetCounted(s, e);
      case ResetState(_, _) => ResetCounted(s, e);
      case Remove(h) => RemoveCounted(s, h);
      case _ =>
    }
  }

  // ----- Control blocks: built once, destroyed once, one lease -----

  /** No two leases refer to the same control block; pointers from `shared()` may. */
  ghost predicate OneLease(holders: map<Hid, Holder>) {
    forall h, k :: h in holders && k in holders && h != k && LeaseOf(holders[h]).Some? ==>
                     LeaseOf(holders[h]) != LeaseOf(holders[k])
  }

  /** A lease whose connection is not reset has both pointers into the same control block. */
  ghost predicate Paired(holders: map<Hid, Holder>) {
    forall h :: h in holders && holders[h].Lease? && holders[h].connection.Some? ==>
                  holders[h].state == holders[h].connection
  }

  /** Every control block ever built is alive or was destroyed exactly once. */
  ghost predicate Logged(s: State) {
    && Distinct(s.returned)
    && (forall g :: g in s.groups ==> g < s.nextGroup)
    && (forall g :: g in s.returned ==> g < s.nextGroup && g !in s.groups)
    && (forall g: Gid :: g < s.nextGroup ==> g in s.groups || g in s.returned)
  }

  lemma LoggedKept(s: State, e: Event)
    requires Logged(s)
    ensures Logged(Apply(s, e))
  {
  }

  lemma NextGroupUnreferenced(s: State)
    requires Counted(s) && Logged(s)
    ensures s.nextGroup !in s.groups && !Referenced(s.holders, s.nextGroup)
  {
    ReferencedIff(s.holders, s.nextGroup);
  }

  /** Every event keeps the two pointers of a lease together and each control block with one lease. */
  lemma LeasesKept(s: State, e: Event)
    requires Counted(s) && Logged(s) && OneLease(s.holders) && Paired(s.holders)
    ensures OneLease(Apply(s, e).holders) && Paired(Apply(s, e).holders)
  {
    if e.BuildLease? {
      NextGroupUnreferenced(s);
      assert forall h :: h in s.holders && LeaseOf(s.holders[h]) == Some(s.nextGroup) ==>
                           s.holders[h].RefersTo(s.nextGroup);
    } else {
      HoldersChange(s, e);
      if e.Move? && CanMove(s.holders, e.from, e.to) {
        MovedOneLease(s.holders, e.from, e.to);
      } else {
        ThinnedOneLease(s.holders, Apply(s, e).holders);
      }
    }
  }

  lemma ThinnedOneLease(holders: map<Hid, Holder>, after: map<Hid, Holder>)
    requires OneLease(holders)
    requires forall h :: h in after ==>
                 LeaseOf(after[h]).None? || (h in holders && LeaseOf(after[h]) == LeaseOf(holders[h]))
    ensures OneLease(after)
  {
  }

  lemma MovedOneLease(holders: map<Hid, Holder>, from: Hid, to: Hid)
    requires OneLease(holders) && CanMove(holders, from, to)
    ensures OneLease(holders[to := holders[from]][from := EMPTY])
  {
    var after := holders[to := holders[from]][from := EMPTY];
    forall h, k | h in after && k in after && h != k && LeaseOf(after[h]).Some?
      ensures LeaseOf(after[h]) != LeaseOf(after[k])
    {
      var h', k' := if h == to then from else h, if k == to then from else k;
      assert LeaseOf(after[k]) == if k == from then None else LeaseOf(holders[k']);
      assert LeaseOf(holders[h']) == LeaseOf(after[h]);
    }
  }

  /** Apart from `BuildLease`, an event takes pointers from holders, moves a lease or adds an alias. */
  lemma HoldersChange(s: State, e: Event)
    requires !e.BuildLease?
    ensures var after := Apply(s, e).holders;
            if e.Move? && CanMove(s.holders, e.from, e.to) then
              after == s.holders[e.to := s.holders[e.from]][e.from := EMPTY]
            else forall h :: h in after ==>
                if h in s.holders then
                  after[h].Lease? == s.holders[h].Lease? && (after[h] == s.holders[h] || after[h].connection.None?)
                  && (LeaseOf(after[h]) == LeaseOf(s.holders[h]) || after[h] == EMPTY)
                else after[h].Alias?
  {
  }
}
