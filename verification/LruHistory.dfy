/**
 What the cache holds, read off the history of its use. For commands used one after another under one
 enabled configuration the list is the `capacity` most recently used texts in order, so whether a use hits
 depends only on how many other texts came after the last use of its own.
 */
module LruHistory {
  import opened Prelude
  import opened SqliteStatements
  import opened StatementCache
  import opened SchemaKeywords
  import opened Commands
  import opened CommandRuns

  /** A command constructed, used and destroyed, or an explicit clearing of the cache. */
  datatype Event = Use(sql: string, actions: seq<Action>) | Wipe

  /** The event empties the cache. */
  predicate Empties(ev: Event) {
    ev.Wipe? || IsSchemaChanging(ev.sql)
  }

  /** The event ends with `t` in the cache. */
  predicate Keeps(sys: System, ev: Event, t: string) {
    ev.Use? && ev.sql == t && Cacheable(sys, t)
  }

  // ----- The reference: texts by the time of their last use -----

  /** The last use of `t` since the cache was last emptied is event `k`. */
  ghost predicate LastUsedAt(sys: System, h: seq<Event>, t: string, k: nat) {
    k < |h| && Keeps(sys, h[k], t) && forall j :: k < j < |h| ==> !Empties(h[j]) && !Keeps(sys, h[j], t)
  }

  /** The distinct texts kept by the events after `k`. */
  ghost function Since(sys: System, h: seq<Event>, k: nat): set<string> {
    set j | k < j < |h| && h[j].Use? && Cacheable(sys, h[j].sql) :: h[j].sql
  }

  /** All texts kept since the cache was last emptied, the most recent first. */
  ghost function Recent(sys: System, h: seq<Event>): seq<string> {
    if h == [] then []
    else Touch(sys, Recent(sys, h[..|h| - 1]), h[|h| - 1])
  }

  ghost function Touch(sys: System, xs: seq<string>, ev: Event): seq<string> {
    if Empties(ev) then [] else if Keeps(sys, ev, ev.sql) then [ev.sql] + Remove(xs, ev.sql) else xs
  }

  lemma {:induction false} RecentDistinct(sys: System, h: seq<Event>)
    ensures Distinct(Recent(sys, h))
  {
    if h == [] {
    } else {
      RecentDistinct(sys, h[..|h| - 1]);
      if h[|h| - 1].Use? {
        RemoveFacts(Recent(sys, h[..|h| - 1]), h[|h| - 1].sql);
      }
    }
  }

  /** The texts in front of `t` are exactly those kept after the last use of `t`. */
  lemma {:induction false} RecentOrder(sys: System, h: seq<Event>, t: string, k: nat)
    requires LastUsedAt(sys, h, t, k)
    ensures exists p :: 0 <= p < |Recent(sys, h)| && Recent(sys, h)[p] == t
                        && Elements(Recent(sys, h)[..p]) == Since(sys, h, k)
  {
    var n := |h| - 1;
    var before, ev := h[..n], h[n];
    RecentDistinct(sys, before);
    if k == n {
      assert Recent(sys, h)[..0] == [];
      assert Recent(sys, h)[0] == t && Elements(Recent(sys, h)[..0]) == Since(sys, h, k);
    } else {
      assert LastUsedAt(sys, before, t, k);
      RecentOrder(sys, before, t, k);
      var xs := Recent(sys, before);
      var p :| 0 <= p < |xs| && xs[p] == t && Elements(xs[..p]) == Since(sys, before, k);
      if Keeps(sys, ev, ev.sql) {
        SinceGrows(sys, h, k);
        var q := MovedPosition(xs, ev.sql, p);
      } else {
        SinceGrows(sys, h, k);
        assert Recent(sys, h) == xs;
      }
    }
  }

  lemma SinceGrows(sys: System, h: seq<Event>, k: nat)
    requires k < |h| - 1 && !h[|h| - 1].Wipe?
    ensures Since(sys, h, k) ==
            Since(sys, h[..|h| - 1], k) + (if Cacheable(sys, h[|h| - 1].sql) then {h[|h| - 1].sql} else {})
  {
  }

  /** A text is among the recent ones exactly when it was kept and nothing emptied the cache since. */
  lemma {:induction false} RecentMembers(sys: System, h: seq<Event>, t: string)
    ensures t in Recent(sys, h) <==> exists k: nat :: LastUsedAt(sys, h, t, k)
  {
    if h == [] {
    } else {
      var n := |h| - 1;
      var before, ev := h[..n], h[n];
      RecentMembers(sys, before, t);
      RecentDistinct(sys, before);
      if ev.Use? {
        RemoveFacts(Recent(sys, before), ev.sql);
      }
      if t in Recent(sys, h) {
        if Keeps(sys, ev, t) {
          assert LastUsedAt(sys, h, t, n);
        } else {
          var k :| LastUsedAt(sys, before, t, k);
          assert LastUsedAt(sys, h, t, k);
        }
      }
      forall k: nat | LastUsedAt(sys, h, t, k) ensures t in Recent(sys, h) {
        if k < n {
          assert LastUsedAt(sys, before, t, k);
        }
      }
    }
  }

  // ----- The cache follows the reference -----

  /** The text list of the cache after one event. */
  ghost function TouchBounded(sys: System, xs: seq<string>, ev: Event, capacity: nat): seq<string> {
    Take(Touch(sys, xs, ev), capacity)
  }

  ghost predicate Idle(sys: System, w: World, cfg: Config) {
    Inv(sys, w) && w.commands == map[] && w.session.handle.Some? && w.session.cache.config == cfg
  }

  /** A use that starts by constructing a command and ends by destroying it, or a wipe. */
  ghost function Live(sys: System, w: World, ev: Event): (w': World)
    requires Inv(sys, w)
    ensures Inv(sys, w')
  {
    match ev
    case Wipe => ApplyKeeps(sys, w, ClearCache); Apply(sys, w, ClearCache).0
    case Use(sql, actions) =>
      ApplyKeeps(sys, w, Construct(0, sql));
      var used := Perform(sys, Apply(sys, w, Construct(0, sql)).0, actions);
      ApplyKeeps(sys, used, Destroy(0));
      Apply(sys, used, Destroy(0)).0
  }

  ghost function Perform(sys: System, w: World, actions: seq<Action>): (w': World)
    requires Inv(sys, w)
    ensures Inv(sys, w')
    decreases actions
  {
    if actions == [] then w
    else
      ApplyKeeps(sys, w, On(0, actions[0]));
      Perform(sys, Apply(sys, w, On(0, actions[0])).0, actions[1..])
  }

  ghost function LiveAll(sys: System, w: World, h: seq<Event>): (w': World)
    requires Inv(sys, w)
    ensures Inv(sys, w')
    decreases h
  {
    if h == [] then w else Live(sys, LiveAll(sys, w, h[..|h| - 1]), h[|h| - 1])
  }

  /** `w'` has the cache, the handle and the commands' statements of `w`. */
  ghost predicate SameHoldings(w: World, w': World) {
    && w'.session.cache == w.session.cache && w'.session.handle == w.session.handle
    && w'.commands.Keys == w.commands.Keys
    && forall id :: id in w.commands ==>
         w'.commands[id].sql == w.commands[id].sql && w'.commands[id].stmt == w.commands[id].stmt
  }

  lemma OnKeepsHoldings(sys: System, w: World, action: Action)
    requires Inv(sys, w)
    ensures SameHoldings(w, Apply(sys, w, On(0, action)).0)
  {
    if 0 in w.commands {
      assert CommandOk(sys, w.session.engine, w.commands[0]);
      DoOnlyView(sys, w.session, w.commands[0], action);
    }
  }

  /** Binding and stepping leave the cache alone. */
  lemma {:induction false} PerformKeepsHoldings(sys: System, w: World, actions: seq<Action>)
    requires Inv(sys, w)
    ensures SameHoldings(w, Perform(sys, w, actions))
    decreases actions
  {
    if actions == [] {
    } else {
      ApplyKeeps(sys, w, On(0, actions[0]));
      OnKeepsHoldings(sys, w, actions[0]);
      PerformKeepsHoldings(sys, Apply(sys, w, On(0, actions[0])).0, actions[1..]);
    }
  }

  lemma TextsDistinct(c: Cache)
    requires c.WellFormed()
    ensures Distinct(Texts(c.lru)) && |Texts(c.lru)| <= c.config.capacity
    ensures forall sql :: IndexOf(c.lru, sql) < |c.lru| <==> sql in Texts(c.lru)
  {
    forall sql ensures IndexOf(c.lru, sql) < |c.lru| <==> sql in Texts(c.lru) {
      var i := IndexOf(c.lru, sql);
      if i < |c.lru| {
        assert Texts(c.lru)[i] == sql;
      }
    }
  }

  lemma WithoutTexts(c: Cache, sql: string)
    requires c.WellFormed()
    ensures var i := IndexOf(c.lru, sql);
            Remove(Texts(c.lru), sql) == if i < |c.lru| then Texts(Without(c.lru, i)) else Texts(c.lru)
  {
    var i := IndexOf(c.lru, sql);
    TextsDistinct(c);
    if i < |c.lru| {
      assert Texts(c.lru)[i] == sql;
      RemoveAt(Texts(c.lru), i);
      assert Texts(Without(c.lru, i)) == Texts(c.lru)[..i] + Texts(c.lru)[i + 1..];
    } else {
      RemoveAbsent(Texts(c.lru), sql);
    }
  }

  /** The lookup removes the text from the list, whether it hits or misses. */
  lemma LookupTexts(sys: System, s: Session, sql: string)
    requires Partitioned(sys, s, {}) && s.handle.Some? && s.cache.On()
    ensures var (s', hit) := s.AcquireCached(sql);
            && Texts(s'.cache.lru) == Remove(Texts(s.cache.lru), sql)
            && s'.cache.config == s.cache.config
            && (hit.Some? <==> sql in Texts(s.cache.lru))
  {
    var i := IndexOf(s.cache.lru, sql);
    WithoutTexts(s.cache, sql);
    if i < |s.cache.lru| {
      assert CacheEntryOk(sys, s.engine, s.cache.lru[i]);
      assert Texts(s.cache.lru)[i] == sql;
    } else {
      TextsDistinct(s.cache);
    }
  }

  /** Releasing a statement whose text is not listed puts it in front, dropping the last text of a full list. */
  lemma ReleaseTexts(c: Cache, e: Engine, sql: string, st: StmtId)
    requires c.WellFormed() && c.Backed(e) && c.On() && st in e.stmts && st !in Stmts(c.lru) && sql !in Texts(c.lru)
    ensures var r := c.Release(e, sql, st);
            Texts(r.cache.lru) == Take([sql] + Texts(c.lru), c.config.capacity) && r.cache.config == c.config
  {
    TextsDistinct(c);
    var r := c.Release(e, sql, st);
    var kept := c.Evict(e).cache.lru;
    assert Texts([Entry(sql, st)] + kept) == [sql] + Texts(kept);
    assert Texts(c.lru)[..|kept|] == Texts(kept);
  }

  /** One use or wipe changes the listed texts as the reference says, cut to the capacity. */
  lemma LiveTexts(sys: System, w: World, ev: Event, cfg: Config)
    requires Idle(sys, w, cfg) && cfg.enabled && cfg.capacity > 0
    ensures var w' := Live(sys, w, ev);
            && Idle(sys, w', cfg)
            && Texts(w'.session.cache.lru) == TouchBounded(sys, Texts(w.session.cache.lru), ev, cfg.capacity)
  {
    TextsDistinct(w.session.cache);
    match ev {
      case Wipe => assert Texts([]) == [];
      case Use(sql, actions) => UseTexts(sys, w, sql, actions, cfg);
    }
  }

  /** Constructing a command on an idle connection takes its text off the list, or empties the list. */
  lemma ConstructTexts(sys: System, w: World, sql: string, cfg: Config)
    requires Idle(sys, w, cfg) && cfg.enabled && cfg.capacity > 0
    ensures var s := Apply(sys, w, Construct(0, sql)).0.session;
            && s.cache.config == cfg && s.handle == w.session.handle
            && Texts(s.cache.lru) == (if IsSchemaChanging(sql) then [] else Remove(Texts(w.session.cache.lru), sql))
  {
    assert HeldBy(w.commands) == {};
    PrepareKeeps(sys, w.session, {}, Cmd(sql, None, 0));
    if IsSchemaChanging(sql) {
      ConfigureKeeps(sys, w.session, {}, cfg);
    } else {
      LookupTexts(sys, w.session, sql);
    }
  }

  /** Destroying the only command puts its text in front if it has a statement that may be cached. */
  lemma DestroyTexts(sys: System, w: World, cfg: Config)
    requires Inv(sys, w) && w.commands.Keys == {0} && w.session.handle.Some? && w.session.cache.config == cfg
    requires cfg.enabled && cfg.capacity > 0
    requires !IsSchemaChanging(w.commands[0].sql) ==> w.commands[0].sql !in Texts(w.session.cache.lru)
    ensures var w' := Apply(sys, w, Destroy(0)).0;
            var sql := w.commands[0].sql;
            && w'.session.cache.config == cfg && w'.session.handle.Some? && w'.commands == map[]
            && Texts(w'.session.cache.lru) ==
               if Cacheable(sys, sql) then Take([sql] + Texts(w.session.cache.lru), cfg.capacity)
               else Texts(w.session.cache.lru)
  {
    var cmd := w.commands[0];
    HeldIsOwned(sys, w, 0);
    assert CommandOk(sys, w.session.engine, cmd);
    FinalizeKeeps(sys, w.session, HeldBy(w.commands), cmd);
    if Cacheable(sys, cmd.sql) {
      ReleaseTexts(w.session.cache, w.session.engine, cmd.sql, cmd.stmt.value);
    }
  }

  /** The rest of the command's life, when construction left it or no command at all. */
  lemma RestTexts(sys: System, w: World, actions: seq<Action>, cfg: Config)
    requires Inv(sys, w) && w.commands.Keys <= {0} && w.session.handle.Some? && w.session.cache.config == cfg
    requires cfg.enabled && cfg.capacity > 0
    requires 0 in w.commands && !IsSchemaChanging(w.commands[0].sql) ==>
               w.commands[0].sql !in Texts(w.session.cache.lru)
    ensures var w' := Apply(sys, Perform(sys, w, actions), Destroy(0)).0;
            var xs := Texts(w.session.cache.lru);
            && w'.session.cache.config == cfg && w'.session.handle.Some? && w'.commands == map[]
            && Texts(w'.session.cache.lru) ==
               if 0 in w.commands && Cacheable(sys, w.commands[0].sql) then Take([w.commands[0].sql] + xs, cfg.capacity)
               else xs
  {
    PerformKeepsHoldings(sys, w, actions);
    if 0 in w.commands {
      assert w.commands.Keys == {0};
      DestroyTexts(sys, Perform(sys, w, actions), cfg);
    } else {
      assert Perform(sys, w, actions).commands.Keys == {};
    }
  }

  /** From the state after construction to the end of the use. */
  lemma UsedTexts(sys: System, w: World, xs: seq<string>, sql: string, actions: seq<Action>, cfg: Config)
    requires Inv(sys, w) && w.session.handle.Some? && w.session.cache.config == cfg && cfg.enabled && cfg.capacity > 0
    requires w.commands.Keys == (if sys.compile(sql).Rejected? then {} else {0})
    requires !sys.compile(sql).Rejected? ==> w.commands[0].sql == sql
    requires Distinct(xs) && |xs| <= cfg.capacity && (!sys.compile(sql).Program? ==> sql !in xs)
    requires Texts(w.session.cache.lru) == if IsSchemaChanging(sql) then [] else Remove(xs, sql)
    ensures var w' := Apply(sys, Perform(sys, w, actions), Destroy(0)).0;
            && w'.session.cache.config == cfg && w'.session.handle.Some? && w'.commands == map[]
            && Texts(w'.session.cache.lru) == TouchBounded(sys, xs, Use(sql, actions), cfg.capacity)
  {
    RemoveFacts(xs, sql);
    if !sys.compile(sql).Rejected? {
      assert 0 in w.commands;
    }
    RestTexts(sys, w, actions, cfg);
    TouchInParts(sys, xs, sql, actions, cfg.capacity);
  }

  /** Taking the text off the list and putting it back in front, as construction and destruction do. */
  lemma TouchInParts(sys: System, xs: seq<string>, sql: string, actions: seq<Action>, capacity: nat)
    requires Distinct(xs) && |xs| <= capacity && (!sys.compile(sql).Program? ==> sql !in xs)
    ensures var off := if IsSchemaChanging(sql) then [] else Remove(xs, sql);
            TouchBounded(sys, xs, Use(sql, actions), capacity) ==
            if Cacheable(sys, sql) then Take([sql] + off, capacity) else off
  {
    if !sys.compile(sql).Program? {
      RemoveAbsent(xs, sql);
    }
  }

  lemma UseTexts(sys: System, w: World, sql: string, actions: seq<Action>, cfg: Config)
    requires Idle(sys, w, cfg) && cfg.enabled && cfg.capacity > 0
    ensures var w' := Live(sys, w, Use(sql, actions));
            && Idle(sys, w', cfg)
            && Texts(w'.session.cache.lru) ==
               TouchBounded(sys, Texts(w.session.cache.lru), Use(sql, actions), cfg.capacity)
  {
    ApplyKeeps(sys, w, Construct(0, sql));
    TextsDistinct(w.session.cache);
    ConstructTexts(sys, w, sql, cfg);
    ConstructOutcome(sys, w, sql);
    if !sys.compile(sql).Program? {
      NotListed(sys, w, sql);
    }
    UsedTexts(sys, Apply(sys, w, Construct(0, sql)).0, Texts(w.session.cache.lru), sql, actions, cfg);
  }

  /** A text that does not compile to a statement is never listed. */
  lemma NotListed(sys: System, w: World, sql: string)
    requires Inv(sys, w) && !sys.compile(sql).Program?
    ensures sql !in Texts(w.session.cache.lru)
  {
  }

  lemma ConstructOutcome(sys: System, w: World, sql: string)
    requires Inv(sys, w) && w.commands == map[] && w.session.handle.Some?
    ensures Apply(sys, w, Construct(0, sql)).0.commands.Keys == if sys.compile(sql).Rejected? then {} else {0}
    ensures !sys.compile(sql).Rejected? ==> Apply(sys, w, Construct(0, sql)).0.commands[0].sql == sql
  {
  }

  /** Cutting the list to the capacity before an event loses nothing that would be listed after it. */
  lemma TouchTaken(sys: System, xs: seq<string>, ev: Event, capacity: nat)
    requires capacity > 0
    ensures TouchBounded(sys, Take(xs, capacity), ev, capacity) == TouchBounded(sys, xs, ev, capacity)
  {
    if ev.Use? {
      TakeMoved(xs, ev.sql, capacity);
    }
  }

  /**
   After any history of uses one after another, the cache lists exactly the first `capacity` of the
   texts kept since it was last emptied, the most recently used first.
   */
  lemma {:induction false} CacheFollowsHistory(sys: System, handle: Handle, image: Image, cfg: Config, h: seq<Event>)
    requires cfg.enabled && cfg.capacity > 0
    ensures var w := LiveAll(sys, Start(sys, handle, cfg, image), h);
            && Idle(sys, w, cfg)
            && Texts(w.session.cache.lru) == Take(Recent(sys, h), cfg.capacity)
  {
    if h == [] {
      assert Texts([]) == [];
    } else {
      var before, ev := h[..|h| - 1], h[|h| - 1];
      CacheFollowsHistory(sys, handle, image, cfg, before);
      LiveTexts(sys, LiveAll(sys, Start(sys, handle, cfg, image), before), ev, cfg);
      TouchTaken(sys, Recent(sys, before), ev, cfg.capacity);
    }
  }

  /** A smaller cache holds a prefix of what a larger one holds after the same history. */
  lemma SmallerIsPrefix(sys: System, handle: Handle, image: Image, small: Config, large: Config, h: seq<Event>)
    requires small.enabled && large.enabled && 0 < small.capacity <= large.capacity
    ensures Texts(LiveAll(sys, Start(sys, handle, small, image), h).session.cache.lru)
            <= Texts(LiveAll(sys, Start(sys, handle, large, image), h).session.cache.lru)
  {
    TakePrefix(Recent(sys, h), small.capacity, large.capacity);
    CacheFollowsHistory(sys, handle, image, small, h);
    CacheFollowsHistory(sys, handle, image, large, h);
  }

  /** The reference alone: `t` is among the `n` most recent texts if fewer than `n` others came after its last use. */
  lemma AmongRecent(sys: System, h: seq<Event>, t: string, n: nat)
    ensures t in Take(Recent(sys, h), n) <==> exists k: nat :: LastUsedAt(sys, h, t, k) && |Since(sys, h, k)| < n
  {
    var recent := Recent(sys, h);
    RecentMembers(sys, h, t);
    RecentDistinct(sys, h);
    forall k: nat | LastUsedAt(sys, h, t, k)
      ensures |Since(sys, h, k)| < n <==> t in Take(recent, n)
    {
      RecentOrder(sys, h, t, k);
      var p :| 0 <= p < |recent| && recent[p] == t && Elements(recent[..p]) == Since(sys, h, k);
      DistinctSize(recent[..p]);
      TakeMember(recent, p, n);
    }
    if t in Take(recent, n) {
      assert t in recent;
    }
  }

  /**
   A use of `t` hits if and only if `t` was used since the cache was last emptied and fewer than
   `capacity` other texts were kept after its last use.
   */
  lemma HitIff(sys: System, handle: Handle, image: Image, cfg: Config, h: seq<Event>, t: string)
    requires cfg.enabled && cfg.capacity > 0
    ensures LiveAll(sys, Start(sys, handle, cfg, image), h).session.AcquireCached(t).1.Some? <==>
            exists k: nat :: LastUsedAt(sys, h, t, k) && |Since(sys, h, k)| < cfg.capacity
  {
    var w := LiveAll(sys, Start(sys, handle, cfg, image), h);
    CacheFollowsHistory(sys, handle, image, cfg, h);
    assert HeldBy(w.commands) == {};
    LookupTexts(sys, w.session, t);
    AmongRecent(sys, h, t, cfg.capacity);
  }
}
