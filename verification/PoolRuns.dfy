/** What holds of the pool in every state that any interleaving of its threads can reach. */
module PoolRuns {
  import opened Prelude
  import opened ConnectionPool
  import opened PoolProtocol

  ghost predicate Inv(s: State) {
    Balanced(s) && Exclusive(s) && Counted(s) && Logged(s) && OneLease(s.holders) && Paired(s.holders)
  }

  lemma StartInv(capacity: nat, threads: set<Tid>)
    ensures Inv(Start(capacity, threads))
  {
  }

  lemma InvKept(s: State, e: Event)
    requires Inv(s)
    ensures Inv(Apply(s, e))
  {
    NextGroupUnreferenced(s);
    BalanceKept(s, e);
    ExclusiveKept(s, e);
    CountedKept(s, e);
    LoggedKept(s, e);
    LeasesKept(s, e);
  }

  lemma {:induction false} RunInv(s: State, es: seq<Event>)
    requires Inv(s)
    ensures Inv(Run(s, es))
  {
    if es == [] {
    } else {
      RunInv(s, es[..|es| - 1]);
      InvKept(Run(s, es[..|es| - 1]), es[|es| - 1]);
    }
  }

  /**
   In every reachable state: if a thread sleeps, what is free is at most what the woken threads will look
   at; so if a thread sleeps and none is on its way, nothing is idle and every slot is leased, in some
   thread's hands, or lost.
   */
  lemma NoSleeperForgotten(capacity: nat, threads: set<Tid>, es: seq<Event>)
    ensures var s := Run(Start(capacity, threads), es);
            && (Count(s.threads, IsSleeping) > 0 ==> Free(s.m) <= Count(s.threads, IsWoken))
            && (Count(s.threads, IsSleeping) > 0 && Count(s.threads, IsWoken) == 0 ==>
                  s.m.idle == [] && InUse(s) + s.lost == s.m.capacity == s.m.created)
  {
    StartInv(capacity, threads);
    RunInv(Start(capacity, threads), es);
  }

  /**
   In every reachable state the creation count is the idle connections plus the leased ones plus those in
   creation, handover or return plus the lost slots, never more than the capacity, and each connection ever
   created is idle once, in one lease group, or in one thread's hands, and nowhere else.
   */
  lemma Conservation(capacity: nat, threads: set<Tid>, es: seq<Event>, c: Conn)
    requires c < Run(Start(capacity, threads), es).nextConn
    ensures var s := Run(Start(capacity, threads), es);
            && s.m.created == |s.m.idle| + InUse(s) + s.lost <= s.m.capacity
            && (exists p :: Holds(s, p, c))
            && (forall p, q :: Holds(s, p, c) && Holds(s, q, c) ==> p == q)
  {
    StartInv(capacity, threads);
    RunInv(Start(capacity, threads), es);
    assert Placed(Run(Start(capacity, threads), es), c);
  }

  /** A thread in the factory has its slot counted, so the handler for an exception always has one to give back. */
  lemma CreatorCounted(s: State, t: Tid)
    requires Inv(s) && Is(s, t, Creating)
    ensures s.m.created > 0
  {
    CountPositive(s.threads, IsBusy);
    assert IsBusy(s.threads[t]);
  }

  // ----- Reference counts and leases -----

  /** In every reachable state each reference count is the number of pointers into its control block. */
  lemma RefsArePointers(capacity: nat, threads: set<Tid>, es: seq<Event>, g: Gid)
    ensures var s := Run(Start(capacity, threads), es);
            && (g in s.groups <==> Pointers(s.holders, g) > 0)
            && (g in s.groups ==> g in s.refs && s.refs[g] == Pointers(s.holders, g))
  {
    StartInv(capacity, threads);
    RunInv(Start(capacity, threads), es);
    assert Pointers(Run(Start(capacity, threads), es).holders, g) == RefsOf(Run(Start(capacity, threads), es), g);
  }

  /** What an event does to a live control block: nothing, or it destroys it for the thread that let go. */
  lemma GroupStep(s: State, e: Event, g: Gid)
    requires g in s.groups && s.nextGroup !in s.groups
    ensures var s' := Apply(s, e);
            && (g in s'.groups ==> s'.groups[g] == s.groups[g])
            && (g !in s'.groups ==>
                  (e.ResetConnection? || e.ResetState?) && Is(s', e.t, Returning(s.groups[g]))
                  && s'.returned == s.returned + [g])
  {
  }

  /**
   A leased connection leaves its group at the event that drops the last pointer of a lease or of `shared()`
   into it and at no other: until then it is not idle, and then the thread that dropped it is returning it.
   */
  lemma LastDropReturns(s: State, e: Event, g: Gid)
    requires Inv(s) && g in s.groups
    ensures var s' := Apply(s, e);
            && (g !in s'.groups <==> !Referenced(s'.holders, g))
            && (g in s'.groups ==> s'.groups[g] == s.groups[g] && s.groups[g] !in s'.m.idle && g !in s'.returned)
            && (g !in s'.groups ==>
                  && (e.ResetConnection? || e.ResetState?) && Is(s', e.t, Returning(s.groups[g]))
                  && s'.returned == s.returned + [g] && g !in s.returned)
  {
    InvKept(s, e);
    GroupStep(s, e, g);
    var s' := Apply(s, e);
    ReferencedIff(s'.holders, g);
    assert Pointers(s'.holders, g) == RefsOf(s', g);
    if g in s'.groups {
      LeasedIsNotIdle(s', g);
    }
  }

  /** A thread that destroys a lease returns its connection if and only if nothing else points into the group. */
  lemma LeaseDestroyed(s: State, t: Tid, h: Hid, g: Gid)
    requires Inv(s) && Is(s, t, Ready) && h in s.holders && s.holders[h] == Lease(Some(g), Some(g))
    ensures g in s.groups
    ensures var s' := Run(s, [ResetConnection(t, h), ResetState(t, h), Remove(h)]);
            && h !in s'.holders && Pointers(s'.holders, g) == Pointers(s.holders, g) - 2
            && (if Pointers(s.holders, g) == 2 then Is(s', t, Returning(s.groups[g])) && s'.returned == s.returned + [g]
                else s'.groups == s.groups && s'.threads == s.threads && s'.returned == s.returned)
  {
    assert Pointers(s.holders, g) == RefsOf(s, g);
    PointersRemoved(s.holders, h, g);
    RunThree(s, ResetConnection(t, h), ResetState(t, h), Remove(h));
    FirstReset(s, t, h, g);
    SecondReset(Apply(s, ResetConnection(t, h)), t, h, g);
    assert s.holders[h := Lease(Some(g), None)][h := EMPTY] - {h} == s.holders - {h};
  }

  /** The reset of a lease's first pointer never destroys its control block. */
  lemma FirstReset(s: State, t: Tid, h: Hid, g: Gid)
    requires Is(s, t, Ready) && h in s.holders && s.holders[h] == Lease(Some(g), Some(g))
    requires g in s.groups && g in s.refs && s.refs[g] >= 2
    ensures Apply(s, ResetConnection(t, h)) ==
            s.(holders := s.holders[h := Lease(Some(g), None)], refs := s.refs[g := s.refs[g] - 1])
  {
  }

  lemma SecondReset(s: State, t: Tid, h: Hid, g: Gid)
    requires Is(s, t, Ready) && h in s.holders && s.holders[h] == Lease(Some(g), None)
    requires g in s.groups && g in s.refs && s.refs[g] >= 1
    ensures var s' := Apply(Apply(s, ResetState(t, h)), Remove(h));
            && s'.holders == s.holders[h := EMPTY] - {h}
            && (if s.refs[g] == 1 then
                  && s'.groups == s.groups - {g} && s'.threads == s.threads[t := Returning(s.groups[g])]
                  && s'.returned == s.returned + [g]
                else s'.groups == s.groups && s'.threads == s.threads && s'.returned == s.returned)
  {
    assert Apply(s, ResetState(t, h)).holders == s.holders[h := EMPTY];
  }

  lemma RunThree(s: State, a: Event, b: Event, c: Event)
    ensures Run(s, [a, b, c]) == Apply(Apply(Apply(s, a), b), c)
  {
    assert [a, b, c][..2] == [a, b] && [a, b][..1] == [a];
    assert Run(s, [a]) == Apply(s, a);
    assert Run(s, [a, b]) == Apply(Run(s, [a]), b);
  }

  /** Over a whole run each lease group ends once if nothing refers to it any more, and has not ended otherwise. */
  lemma ReturnedOnce(capacity: nat, threads: set<Tid>, es: seq<Event>, g: Gid)
    requires g < Run(Start(capacity, threads), es).nextGroup
    ensures var s := Run(Start(capacity, threads), es);
            && multiset(s.returned)[g] == (if Referenced(s.holders, g) then 0 else 1)
            && (Referenced(s.holders, g) ==> g in s.groups && s.groups[g] !in s.m.idle)
  {
    var s := Run(Start(capacity, threads), es);
    StartInv(capacity, threads);
    RunInv(Start(capacity, threads), es);
    DistinctCount(s.returned, g);
    ReferencedIff(s.holders, g);
    assert Pointers(s.holders, g) == RefsOf(s, g);
    if Referenced(s.holders, g) {
      LeasedIsNotIdle(s, g);
    }
  }

  lemma LeasedIsNotIdle(s: State, g: Gid)
    requires Exclusive(s) && g in s.groups
    ensures s.groups[g] !in s.m.idle
  {
    if s.groups[g] in s.m.idle {
      var i :| 0 <= i < |s.m.idle| && s.m.idle[i] == s.groups[g];
      assert Holds(s, IdleAt(i), s.groups[g]) && Holds(s, InGroup(g), s.groups[g]);
    }
  }

  /** The return itself makes the connection idle, once, and wakes a sleeper if there is one. */
  lemma ReturnMakesIdle(s: State, t: Tid, wake: Tid)
    requires Inv(s) && t in s.threads && s.threads[t].Returning? && CanNotify(s.threads, wake)
    ensures var s' := Apply(s, Return(t, wake));
            && s'.m.idle == s.m.idle + [s.threads[t].conn] && s.threads[t].conn !in s.m.idle
            && (Count(s.threads, IsSleeping) > 0 ==> Is(s', wake, Woken))
  {
    var c := s.threads[t].conn;
    CountPositive(s.threads, IsSleeping);
    if c in s.m.idle {
      var i :| 0 <= i < |s.m.idle| && s.m.idle[i] == c;
      assert Holds(s, IdleAt(i), c) && Holds(s, WithThread(t), c);
    }
  }

  // ----- A factory that returns nothing -----

  /** Event `i` of the run is a factory call that takes effect and returns nothing. */
  ghost predicate GotNothing(s: State, es: seq<Event>, i: nat)
    requires i < |es|
  {
    es[i].FactoryReturnsNothing? && Is(Run(s, es[..i]), es[i].t, Creating)
  }

  lemma {:induction false} LostIff(s: State, es: seq<Event>)
    ensures Run(s, es).lost >= s.lost
    ensures Run(s, es).lost == s.lost <==> forall i :: 0 <= i < |es| ==> !GotNothing(s, es, i)
  {
    if es == [] {
    } else {
      var n := |es| - 1;
      LostIff(s, es[..n]);
      forall i | 0 <= i < n ensures GotNothing(s, es, i) <==> GotNothing(s, es[..n], i) {
        assert es[..n][..i] == es[..i];
      }
      LostStep(Run(s, es[..n]), es[n]);
      assert GotNothing(s, es, n) <==> es[n].FactoryReturnsNothing? && Is(Run(s, es[..n]), es[n].t, Creating);
    }
  }

  lemma LostStep(s: State, e: Event)
    ensures Apply(s, e).m.capacity == s.m.capacity
    ensures Apply(s, e).lost == s.lost + (if e.FactoryReturnsNothing? && Is(s, e.t, Creating) then 1 else 0)
  {
  }

  /**
   After a run every connection counted as created is idle, leased or in a thread's hands if and only if no
   factory call returned nothing; otherwise fewer are.
   */
  lemma CreatedAccountedIff(capacity: nat, threads: set<Tid>, es: seq<Event>)
    ensures var s := Run(Start(capacity, threads), es);
            && s.m.created >= |s.m.idle| + InUse(s)
            && (s.m.created == |s.m.idle| + InUse(s) <==>
                forall i :: 0 <= i < |es| ==> !GotNothing(Start(capacity, threads), es, i))
  {
    StartInv(capacity, threads);
    RunInv(Start(capacity, threads), es);
    LostIff(Start(capacity, threads), es);
  }

  /** Once every slot is lost nobody gets a connection any more, whatever happens. */
  lemma {:induction false} AllLostForever(s: State, es: seq<Event>)
    requires Inv(s) && s.lost == s.m.capacity
    ensures var s' := Run(s, es);
            && s'.lost == s'.m.capacity == s.m.capacity
            && Attempt(s'.m).1.MustWait? && s'.groups == map[]
  {
    if es == [] {
      AllLost(s);
    } else {
      var before := es[..|es| - 1];
      AllLostForever(s, before);
      RunInv(s, before);
      LostStep(Run(s, before), es[|es| - 1]);
      InvKept(Run(s, before), es[|es| - 1]);
      AllLost(Run(s, es));
    }
  }

  lemma AllLost(s: State)
    requires Inv(s) && s.lost >= s.m.capacity
    ensures s.lost == s.m.capacity && Attempt(s.m).1.MustWait? && s.groups == map[]
  {
  }

  /** Thread `t` tries `n` times, and the factory returns nothing each time. */
  function Failures(t: Tid, n: nat): seq<Event> {
    if n == 0 then [] else Failures(t, n - 1) + [Enter(t), FactoryReturnsNothing(t)]
  }

  /** The state after `n` failed calls: that many slots are lost. */
  function Starved(capacity: nat, t: Tid, n: nat): State {
    State(Monitor(capacity, n, []), map[t := Ready], map[], map[], map[], 0, 0, n, [])
  }

  /** For every capacity that many failures lose every slot; from then on `AllLostForever` applies. */
  lemma {:induction false} FailuresLose(capacity: nat, t: Tid, n: nat)
    requires n <= capacity
    ensures Run(Start(capacity, {t}), Failures(t, n)) == Starved(capacity, t, n)
  {
    if n == 0 {
      assert Start(capacity, {t}).threads == map[t := Ready];
    } else {
      FailuresLose(capacity, t, n - 1);
      OneMoreFailure(Start(capacity, {t}), Failures(t, n - 1), capacity, t, n - 1);
    }
  }

  lemma OneMoreFailure(s: State, es: seq<Event>, capacity: nat, t: Tid, n: nat)
    requires n < capacity && Run(s, es) == Starved(capacity, t, n)
    ensures var more := es + [Enter(t), FactoryReturnsNothing(t)];
            Run(s, more) == Starved(capacity, t, n + 1) && HighWater(s, more) == Max(HighWater(s, es), 1)
  {
    RunTwoMore(s, es, Enter(t), FactoryReturnsNothing(t));
    FailureStep(capacity, t, n);
  }

  lemma FailureStep(capacity: nat, t: Tid, n: nat)
    requires n < capacity
    ensures Apply(Apply(Starved(capacity, t, n), Enter(t)), FactoryReturnsNothing(t)) == Starved(capacity, t, n + 1)
    ensures InUse(Starved(capacity, t, n + 1)) == 0 && InUse(Apply(Starved(capacity, t, n), Enter(t))) == 1
  {
    assert Apply(Starved(capacity, t, n), Enter(t)).threads == map[t := Creating];
    Retag(map[t := Ready], t, Creating);
    assert Chosen(map[t := Ready], IsBusy) == {};
  }

  lemma RunTwoMore(s: State, es: seq<Event>, a: Event, b: Event)
    ensures Run(s, es + [a, b]) == Apply(Apply(Run(s, es), a), b)
    ensures HighWater(s, es + [a, b]) ==
            Max(Max(HighWater(s, es), InUse(Apply(Run(s, es), a))), InUse(Run(s, es + [a, b])))
  {
    assert (es + [a])[..|es|] == es && (es + [a, b])[..|es| + 1] == es + [a];
  }

  // ----- High-water mark -----

  function Max(a: nat, b: nat): nat {
    if a < b then b else a
  }

  /** The most connections leased or in a thread's hands at once at any point of the run. */
  ghost function HighWater(s: State, es: seq<Event>): nat {
    if es == [] then InUse(s) else Max(HighWater(s, es[..|es| - 1]), InUse(Run(s, es)))
  }

  ghost predicate NeverThrows(es: seq<Event>) {
    forall i :: 0 <= i < |es| ==> !es[i].FactoryThrows?
  }

  ghost predicate NeverNothing(es: seq<Event>) {
    forall i :: 0 <= i < |es| ==> !es[i].FactoryReturnsNothing?
  }

  /** Which events change the creation count. */
  lemma CreatedStep(s: State, e: Event)
    ensures Apply(s, e).m.created > s.m.created ==> Apply(s, e).m.idle == []
    ensures Apply(s, e).m.created < s.m.created ==> e.FactoryThrows?
  {
  }

  lemma StepHighWater(s: State, e: Event, mark: nat)
    requires Inv(s) && InUse(s) <= mark && s.m.created <= mark + s.lost
    ensures var s' := Apply(s, e);
            && s'.m.created <= Max(mark, InUse(s')) + s'.lost
            && (!e.FactoryThrows? && s.m.created >= mark ==> s'.m.created >= Max(mark, InUse(s')))
  {
    InvKept(s, e);
    CreatedStep(s, e);
    LostStep(s, e);
  }

  lemma {:induction false} RunHighWater(capacity: nat, threads: set<Tid>, es: seq<Event>)
    ensures var s := Run(Start(capacity, threads), es);
            var mark := HighWater(Start(capacity, threads), es);
            && InUse(s) <= mark && s.m.created <= mark + s.lost && (NeverThrows(es) ==> s.m.created >= mark)
  {
    StartInv(capacity, threads);
    if es == [] {
    } else {
      var n := |es| - 1;
      RunHighWater(capacity, threads, es[..n]);
      RunInv(Start(capacity, threads), es[..n]);
      StepHighWater(Run(Start(capacity, threads), es[..n]), es[n], HighWater(Start(capacity, threads), es[..n]));
    }
  }

  /**
   If the factory never returns nothing, the pool has at most as many connections as were in use at once, and
   exactly that many if it never throws either.
   */
  lemma CreatedIsHighWater(capacity: nat, threads: set<Tid>, es: seq<Event>)
    ensures var s := Run(Start(capacity, threads), es);
            var mark := HighWater(Start(capacity, threads), es);
            && (NeverNothing(es) ==> s.m.created <= mark)
            && (NeverNothing(es) && NeverThrows(es) ==> s.m.created == mark)
            && s.m.created <= mark + s.lost
  {
    RunHighWater(capacity, threads, es);
    LostIff(Start(capacity, threads), es);
  }

  lemma {:induction false} FailuresHighWater(capacity: nat, t: Tid, n: nat)
    requires n <= capacity
    ensures HighWater(Start(capacity, {t}), Failures(t, n)) == if n == 0 then 0 else 1
  {
    if n == 0 {
      StartInv(capacity, {t});
    } else {
      FailuresHighWater(capacity, t, n - 1);
      FailuresLose(capacity, t, n - 1);
      OneMoreFailure(Start(capacity, {t}), Failures(t, n - 1), capacity, t, n - 1);
    }
  }

  /**
   A factory that keeps returning nothing makes the creation count exceed the number of connections in use:
   for every capacity a run counts that many as created with never more than one in use.
   */
  lemma CreatedBeyondHighWater(capacity: nat, t: Tid)
    ensures Run(Start(capacity, {t}), Failures(t, capacity)).m.created == capacity
    ensures HighWater(Start(capacity, {t}), Failures(t, capacity)) <= 1
  {
    FailuresLose(capacity, t, capacity);
    FailuresHighWater(capacity, t, capacity);
  }
}
