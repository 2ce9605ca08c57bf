/** What each operation of the pool does to threads, leases and shared pointers, and how long a pointer lasts. */
module PoolHolders {
  import opened Prelude
  import opened ConnectionPool
  import opened PoolProtocol
  import opened PoolRuns

  /**
   One pass of the wait loop by a thread that enters or was woken: the last idle connection is taken, or else a slot is
   claimed, or else the thread sleeps. Other threads do not notice, and a thread elsewhere cannot do it.
   */
  lemma EnterLaw(s: State, t: Tid)
    ensures var s' := Apply(s, Enter(t));
            if !Is(s, t, Ready) && !Is(s, t, Woken) then s' == s
            else if s.m.idle != [] then
              var n := |s.m.idle| - 1;
              s' == s.(m := s.m.(idle := s.m.idle[..n]), threads := s.threads[t := HandingOver(s.m.idle[n])])
            else if s.m.created < s.m.capacity then
              s' == s.(m := s.m.(created := s.m.created + 1), threads := s.threads[t := Creating])
            else s' == s.(threads := s.threads[t := Sleeping])
  {
  }

  /** A waiting thread may wake without being notified, and only looks again. */
  lemma WakeLaw(s: State, t: Tid)
    ensures Apply(s, SpuriousWake(t)) == if Is(s, t, Sleeping) then s.(threads := s.threads[t := Woken]) else s
  {
  }

  /** What the factory does to the thread that calls it: a connection never handed out before, or a slot lost. */
  lemma FactoryLaw(s: State, t: Tid)
    requires Inv(s) && Is(s, t, Creating)
    ensures Apply(s, FactoryReturns(t)) ==
            s.(threads := s.threads[t := HandingOver(s.nextConn)], nextConn := s.nextConn + 1)
    ensures forall p :: !Holds(s, p, s.nextConn)
    ensures Apply(s, FactoryReturnsNothing(t)) == s.(threads := s.threads[t := Ready], lost := s.lost + 1)
  {
  }

  /** A connection handed over ends in a new lease with both pointers into a new control block that keeps it. */
  lemma BuildLaw(s: State, t: Tid, h: Hid, c: Conn)
    requires Inv(s) && Is(s, t, HandingOver(c)) && h !in s.holders
    ensures var s', g := Apply(s, BuildLease(t, h)), s.nextGroup;
            && s'.holders == s.holders[h := Lease(Some(g), Some(g))] && s'.threads == s.threads[t := Ready]
            && g !in s.groups && s'.groups == s.groups[g := c] && s'.refs == s.refs[g := 2]
            && Pointers(s'.holders, g) == 2 && s'.m == s.m
  {
    NextGroupUnreferenced(s);
    ReferencedIff(s.holders, s.nextGroup);
    PointersUpdate(s.holders, h, Lease(Some(s.nextGroup), Some(s.nextGroup)), s.nextGroup);
  }

  /** `shared()` gives a pointer to where the lease's own connection pointer points, and counts it. */
  lemma ShareLaw(s: State, from: Hid, to: Hid)
    requires Inv(s) && from in s.holders && to !in s.holders
    ensures var s' := Apply(s, Share(from, to));
            && s'.holders == s.holders[to := Alias(s.holders[from].connection)]
            && s'.m == s.m && s'.threads == s.threads && s'.groups == s.groups && s'.returned == s.returned
            && forall g :: s.holders[from].connection == Some(g) ==>
                 && g in s.groups && g in s'.refs && s'.refs[g] == RefsOf(s, g) + 1
                 && Pointers(s'.holders, g) == Pointers(s.holders, g) + 1
  {
    if s.holders[from].connection.Some? {
      var g := s.holders[from].connection.value;
      PointersUpdate(s.holders, to, Alias(Some(g)), g);
      assert s.holders[from].RefersTo(g);
      ReferencedIff(s.holders, g);
      assert Pointers(s.holders, g) == RefsOf(s, g);
    }
  }

  /** Moving a lease leaves an empty one behind and changes nothing else. */
  lemma MoveLaw(s: State, from: Hid, to: Hid)
    requires from in s.holders && s.holders[from].Lease? && from != to
    requires to in s.holders ==> s.holders[to] == Lease(None, None)
    ensures Apply(s, Move(from, to)) == s.(holders := s.holders[to := s.holders[from]][from := Lease(None, None)])
  {
  }

  /** A reset leaves the pointer null, and every other pointer of every holder as it was. */
  lemma ResetLaw(s: State, t: Tid, h: Hid)
    requires Is(s, t, Ready) && h in s.holders
    ensures Apply(s, ResetConnection(t, h)).holders == s.holders[h := s.holders[h].(connection := None)]
    ensures s.holders[h].Lease? && s.holders[h].connection.None? ==>
              Apply(s, ResetState(t, h)).holders == s.holders[h := Lease(None, None)]
  {
  }

  /** `notify_one` lets one waiting thread go on, and no other. */
  lemma NotifyLaw(s: State, e: Event)
    requires (e.Return? && e.t in s.threads && s.threads[e.t].Returning?) || (e.FactoryThrows? && Is(s, e.t, Creating))
    requires Inv(s) && CanNotify(s.threads, e.wake)
    ensures var s' := Apply(s, e);
            && s'.threads.Keys == s.threads.Keys && Is(s', e.t, Ready)
            && (forall u :: u in s.threads && u != e.t && u != e.wake ==> s'.threads[u] == s.threads[u])
            && (e.wake in s.threads && e.wake != e.t ==>
                  s'.threads[e.wake] == if s.threads[e.wake] == Sleeping then Woken else s.threads[e.wake])
            && (if e.Return? then s'.m == s.m.(idle := s.m.idle + [s.threads[e.t].conn])
                else s'.m == s.m.(created := s.m.created - 1))
  {
    if e.FactoryThrows? {
      CreatorCounted(s, e.t);
    }
  }

  // ----- How long a pointer lasts -----

  /** The event takes a pointer from the holder: its reset, or a move to another lease. */
  predicate LetsGo(e: Event, h: Hid) {
    ((e.ResetConnection? || e.ResetState?) && e.h == h) || (e.Move? && e.from == h)
  }

  lemma HeldStep(s: State, e: Event, h: Hid, g: Gid)
    requires Inv(s) && h in s.holders && s.holders[h].RefersTo(g) && !LetsGo(e, h)
    ensures g in s.groups
    ensures var s' := Apply(s, e);
            h in s'.holders && s'.holders[h] == s.holders[h] && g in s'.groups && s'.groups[g] == s.groups[g]
  {
    HolderKept(s, e, h);
    InvKept(s, e);
    ReferencedIsLeased(s, h, g);
    ReferencedIsLeased(Apply(s, e), h, g);
    NextGroupUnreferenced(s);
    GroupStep(s, e, g);
  }

  lemma ReferencedIsLeased(s: State, h: Hid, g: Gid)
    requires Inv(s) && h in s.holders && s.holders[h].RefersTo(g)
    ensures g in s.groups
  {
    ReferencedIff(s.holders, g);
    assert Pointers(s.holders, g) == RefsOf(s, g);
  }

  lemma HolderKept(s: State, e: Event, h: Hid)
    requires h in s.holders && !s.holders[h].Empty() && !LetsGo(e, h)
    ensures h in Apply(s, e).holders && Apply(s, e).holders[h] == s.holders[h]
  {
  }

  /** While a lease or shared pointer is neither reset nor moved from, its connection stays out of the pool. */
  lemma {:induction false} HeldStaysLeased(s: State, es: seq<Event>, h: Hid, g: Gid)
    requires Inv(s) && h in s.holders && s.holders[h].RefersTo(g)
    requires forall i :: 0 <= i < |es| ==> !LetsGo(es[i], h)
    ensures g in s.groups
    ensures var s' := Run(s, es);
            && h in s'.holders && s'.holders[h] == s.holders[h]
            && g in s'.groups && s'.groups[g] == s.groups[g] && s.groups[g] !in s'.m.idle && g !in s'.returned
  {
    if es == [] {
      ReferencedIsLeased(s, h, g);
      LeasedIsNotIdle(s, g);
    } else {
      var n := |es| - 1;
      HeldStaysLeased(s, es[..n], h, g);
      RunInv(s, es[..n]);
      HeldStep(Run(s, es[..n]), es[n], h, g);
      InvKept(Run(s, es[..n]), es[n]);
      LeasedIsNotIdle(Run(s, es), g);
    }
  }

  /**
   A pointer obtained from `shared()` at any point of any run keeps the connection out of the pool until it is itself
   reset, whatever becomes of the lease it came from.
   */
  lemma SharedKeepsLeased(
      capacity: nat, threads: set<Tid>, before: seq<Event>, from: Hid, to: Hid, g: Gid, after: seq<Event>)
    requires var s := Run(Start(capacity, threads), before);
             from in s.holders && s.holders[from].connection == Some(g) && to !in s.holders
    requires forall i, t :: 0 <= i < |after| ==> after[i] != ResetConnection(t, to)
    ensures var s := Run(Start(capacity, threads), before);
            var s' := Run(Apply(s, Share(from, to)), after);
            && g in s.groups
            && to in s'.holders && s'.holders[to] == Alias(Some(g))
            && g in s'.groups && s'.groups[g] == s.groups[g] && s.groups[g] !in s'.m.idle && g !in s'.returned
  {
    var s := Run(Start(capacity, threads), before);
    StartInv(capacity, threads);
    RunInv(Start(capacity, threads), before);
    ShareLaw(s, from, to);
    InvKept(s, Share(from, to));
    AliasStays(Apply(s, Share(from, to)), after, to, g);
  }

  /** A shared pointer has one pointer only, so only its reset ends it. */
  lemma {:induction false} AliasStays(s: State, es: seq<Event>, h: Hid, g: Gid)
    requires Inv(s) && h in s.holders && s.holders[h] == Alias(Some(g))
    requires forall i, t :: 0 <= i < |es| ==> es[i] != ResetConnection(t, h)
    ensures g in s.groups
    ensures var s' := Run(s, es);
            && h in s'.holders && s'.holders[h] == Alias(Some(g))
            && g in s'.groups && s'.groups[g] == s.groups[g] && s.groups[g] !in s'.m.idle && g !in s'.returned
  {
    if es == [] {
      HeldStaysLeased(s, [], h, g);
    } else {
      var n := |es| - 1;
      AliasStays(s, es[..n], h, g);
      RunInv(s, es[..n]);
      AliasStep(Run(s, es[..n]), es[n], h, g);
      InvKept(Run(s, es[..n]), es[n]);
      HeldStaysLeased(Run(s, es), [], h, g);
    }
  }

  lemma AliasStep(s: State, e: Event, h: Hid, g: Gid)
    requires Inv(s) && h in s.holders && s.holders[h] == Alias(Some(g))
    requires forall t :: e != ResetConnection(t, h)
    ensures g in s.groups
    ensures var s' := Apply(s, e);
            h in s'.holders && s'.holders[h] == Alias(Some(g)) && g in s'.groups && s'.groups[g] == s.groups[g]
  {
    if e.ResetConnection? {
      assert e != ResetConnection(e.t, h);
    }
    if LetsGo(e, h) {
      assert Apply(s, e) == s;
      HeldStaysLeased(s, [], h, g);
    } else {
      HeldStep(s, e, h, g);
    }
  }
}
