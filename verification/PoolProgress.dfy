/** When a pool can still serve somebody: exactly which states have a continuation in which an attempt need not wait. */
module PoolProgress {
  import opened Prelude
  import opened ConnectionPool
  import opened PoolProtocol
  import opened PoolRuns

  /** After `es` an attempt finds something free. */
  ghost predicate Serves(s: State, es: seq<Event>) {
    !Attempt(Run(s, es).m).1.MustWait?
  }

  /** Some thread is neither waiting nor about to look again. */
  ghost predicate SomebodyElse(s: State) {
    exists t :: t in s.threads && !s.threads[t].Sleeping? && !s.threads[t].Woken?
  }

  lemma {:induction false} RunCons(s: State, e: Event, es: seq<Event>)
    ensures Run(s, [e] + es) == Run(Apply(s, e), es)
  {
    if es == [] {
      assert [e] + es == [e] && Run(s, [e]) == Apply(Run(s, []), e);
    } else {
      var n := |es| - 1;
      RunCons(s, e, es[..n]);
      assert ([e] + es)[..n + 1] == [e] + es[..n];
    }
  }

  /** A thread that sleeps, if there is one, or else any. */
  lemma SomeSleeper(threads: map<Tid, Pc>) returns (wake: Tid)
    ensures CanNotify(threads, wake)
  {
    if t :| t in threads && threads[t].Sleeping? {
      wake := t;
    } else {
      wake := 0;
    }
  }

  lemma {:induction false} Above(s: set<nat>) returns (bound: nat)
    ensures forall x :: x in s ==> x < bound
  {
    if s == {} {
      bound := 0;
    } else {
      var x :| x in s;
      var rest := Above(s - {x});
      assert s == s - {x} + {x};
      bound := if rest > x then rest else x + 1;
    }
  }

  lemma ReturnServes(s: State, t: Tid) returns (e: Event)
    requires t in s.threads && s.threads[t].Returning?
    ensures Serves(s, [e])
  {
    var wake := SomeSleeper(s.threads);
    e := Return(t, wake);
    assert Run(s, [e]) == Apply(s, e);
  }

  /** A thread outside the pool can drop all pointers into a group one by one and return its connection. */
  lemma {:induction false} DropAll(s: State, t: Tid, g: Gid) returns (es: seq<Event>)
    requires Inv(s) && Is(s, t, Ready) && g in s.groups
    ensures Serves(s, es)
    decreases RefsOf(s, g)
  {
    var e := DropOne(s, t, g);
    var s' := Apply(s, e);
    InvKept(s, e);
    var rest: seq<Event>;
    if g in s'.groups {
      rest := DropAll(s', t, g);
    } else {
      var last := ReturnServes(s', t);
      rest := [last];
    }
    es := [e] + rest;
    RunCons(s, e, rest);
  }

  lemma DropOne(s: State, t: Tid, g: Gid) returns (e: Event)
    requires Inv(s) && Is(s, t, Ready) && g in s.groups
    ensures var s' := Apply(s, e);
            if g in s'.groups then Is(s', t, Ready) && RefsOf(s', g) < RefsOf(s, g)
            else t in s'.threads && s'.threads[t].Returning?
  {
    assert Pointers(s.holders, g) == RefsOf(s, g);
    ReferencedIff(s.holders, g);
    var h :| h in s.holders && s.holders[h].RefersTo(g);
    if s.holders[h].connection == Some(g) {
      e := ResetConnection(t, h);
    } else {
      assert s.holders[h].connection.None?;
      e := ResetState(t, h);
    }
  }

  /** A thread that has a slot in its hands can bring it back. */
  lemma BusyServes(s: State, t: Tid) returns (es: seq<Event>)
    requires Inv(s) && t in s.threads && IsBusy(s.threads[t])
    ensures Serves(s, es)
  {
    match s.threads[t] {
      case Returning(_) =>
        var e := ReturnServes(s, t);
        es := [e];
      case Creating =>
        CreatorCounted(s, t);
        var wake := SomeSleeper(s.threads);
        es := [FactoryThrows(t, wake)];
        assert Run(s, es) == Apply(s, es[0]);
      case HandingOver(_) =>
        var h := Above(s.holders.Keys);
        var e := BuildLease(t, h);
        InvKept(s, e);
        var rest := DropAll(Apply(s, e), t, s.nextGroup);
        es := [e] + rest;
        RunCons(s, e, rest);
    }
  }

  lemma Served(s: State) returns (es: seq<Event>)
    requires Inv(s) && s.lost < s.m.capacity && SomebodyElse(s)
    ensures Serves(s, es)
  {
    if !Attempt(s.m).1.MustWait? {
      es := [];
    } else if t :| t in s.threads && IsBusy(s.threads[t]) {
      es := BusyServes(s, t);
    } else {
      CountPositive(s.threads, IsBusy);
      var t :| t in s.threads && !s.threads[t].Sleeping? && !s.threads[t].Woken?;
      assert s.groups != map[];
      var g :| g in s.groups;
      es := DropAll(s, t, g);
    }
  }

  /** While everybody waits and nothing is free, it stays so: only threads that run bring a slot back. */
  lemma {:induction false} EverybodyWaits(s: State, es: seq<Event>)
    requires Attempt(s.m).1.MustWait? && !SomebodyElse(s)
    ensures Run(s, es).m == s.m && !SomebodyElse(Run(s, es))
  {
    if es == [] {
    } else {
      EverybodyWaits(s, es[..|es| - 1]);
      WaitingStep(Run(s, es[..|es| - 1]), es[|es| - 1]);
    }
  }

  lemma WaitingStep(s: State, e: Event)
    requires Attempt(s.m).1.MustWait? && !SomebodyElse(s)
    ensures Apply(s, e).m == s.m && !SomebodyElse(Apply(s, e))
  {
  }

  /**
   A pool that was used in any way can still serve somebody if and only if something is free now, or not all slots are
   lost and some thread is neither waiting nor about to look again.
   */
  lemma CanServeIff(capacity: nat, threads: set<Tid>, before: seq<Event>)
    ensures var s := Run(Start(capacity, threads), before);
            (exists es :: Serves(s, es)) <==>
            !Attempt(s.m).1.MustWait? || (s.lost < s.m.capacity && SomebodyElse(s))
  {
    var s := Run(Start(capacity, threads), before);
    StartInv(capacity, threads);
    RunInv(Start(capacity, threads), before);
    if !Attempt(s.m).1.MustWait? {
      assert Serves(s, []);
    } else if s.lost < s.m.capacity && SomebodyElse(s) {
      var es := Served(s);
    } else {
      forall es ensures !Serves(s, es) {
        if SomebodyElse(s) {
          AllLost(s);
          AllLostForever(s, es);
        } else {
          EverybodyWaits(s, es);
        }
      }
    }
  }

  /** A thread that asks again for the only slot while it holds the lease itself waits for ever, with no slot lost. */
  lemma OwnLeaseBlocks(t: Tid, h: Hid, es: seq<Event>)
    ensures var asked := [Enter(t), FactoryReturns(t), BuildLease(t, h), Enter(t)];
            var s := Run(Start(1, {t}), asked);
            s.lost == 0 && Is(s, t, Sleeping) && !Serves(s, es)
  {
    RunFour(Start(1, {t}), Enter(t), FactoryReturns(t), BuildLease(t, h), Enter(t));
    FirstSteps(t, h);
    AskedAgain(t, h);
    EverybodyWaits(Apply(AfterStep(t, h, 3), Enter(t)), es);
  }

  lemma FirstSteps(t: Tid, h: Hid)
    ensures Apply(Start(1, {t}), Enter(t)) == AfterStep(t, h, 1)
    ensures Apply(AfterStep(t, h, 1), FactoryReturns(t)) == AfterStep(t, h, 2)
    ensures Apply(AfterStep(t, h, 2), BuildLease(t, h)) == AfterStep(t, h, 3)
  {
    assert Start(1, {t}).threads == map[t := Ready];
  }

  lemma AskedAgain(t: Tid, h: Hid)
    ensures var s := Apply(AfterStep(t, h, 3), Enter(t));
            && s.lost == 0 && Is(s, t, Sleeping) && Attempt(s.m).1.MustWait? && !SomebodyElse(s)
  {
  }

  /** The thread after it took the only slot, after the factory returned, and with its lease. */
  function AfterStep(t: Tid, h: Hid, step: nat): State {
    var m := Monitor(1, 1, []);
    if step == 1 then State(m, map[t := Creating], map[], map[], map[], 0, 0, 0, [])
    else if step == 2 then State(m, map[t := HandingOver(0)], map[], map[], map[], 1, 0, 0, [])
    else State(m, map[t := Ready], map[0 := 0], map[0 := 2], map[h := Lease(Some(0), Some(0))], 1, 1, 0, [])
  }

  lemma RunFour(s: State, a: Event, b: Event, c: Event, d: Event)
    ensures Run(s, [a, b, c, d]) == Apply(Apply(Apply(Apply(s, a), b), c), d)
  {
    RunThree(s, a, b, c);
    assert [a, b, c, d][..3] == [a, b, c];
  }
}
