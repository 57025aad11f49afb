/** What the purge leaves counts to infinity, however the nodes' ticks are spread. */
module CountingUp {
  // Any run of the asynchronous protocol in which every node purges before it sends,
  // nobody registers after some time, and what arrives at all arrives within some
  // delay. Nodes tick whenever they like, and frames may be lost, repeated or overtaken.

  import opened Arithmetic
  import opened Routes
  import opened Walks
  import opened Mesh
  import GradientTables

  /** No peer registers after `quiet`, and no frame is under way for longer than `delay`. */
  datatype Pace = Pace(quiet: int, delay: int)

  ghost predicate PaceOk(cfg: Config, pace: Pace)
  {
    cfg.interval > 0 && pace.delay >= 0
  }

  ghost predicate InPace(cfg: Config, pace: Pace, s: Net, step: Step)
  {
    match step
    case Register(u, v) => s.clock <= pace.quiet
    case Gossip(u, budget, routes) => Fresh(TableOf(s, u), s.clock - 3 * cfg.interval) == TableOf(s, u)
    case Deliver(a, v) => s.clock <= a.at + pace.delay
    case _ => true
  }

  ghost predicate PacedRun(cfg: Config, pace: Pace, steps: seq<Step>)
  {
    IsRun(cfg, steps) &&
    forall i :: 0 <= i < |steps| ==> InPace(cfg, pace, After(cfg, steps[..i]), steps[i])
  }

  /** The longest time from one node's learning of a route to another's. */
  function Period(cfg: Config, pace: Pace): int
  {
    3 * cfg.interval + pace.delay
  }

  /** How many whole periods have passed since the last registration. */
  function Periods(cfg: Config, pace: Pace, time: int): nat
    requires PaceOk(cfg, pace)
  {
    if time < pace.quiet then 0 else Quotient(time - pace.quiet, Period(cfg, pace))
  }

  function Quotient(x: nat, m: int): nat
    requires m > 0
  {
    x / m
  }

  lemma QuotientGrows(x: nat, y: nat, m: int)
    requires m > 0 && x <= y
    ensures Quotient(x, m) <= Quotient(y, m)
  {
    if x / m > y / m {
      MulMonotone(m, y / m + 1, x / m);
    }
  }

  lemma QuotientShift(x: nat, m: int)
    requires m > 0
    ensures Quotient(x + m, m) == Quotient(x, m) + 1
    ensures x < m ==> Quotient(x, m) == 0
  {
    DivModUnique(x + m, m, x / m + 1, x % m);
    if x < m {
      DivModUnique(x, m, 0, x);
    }
  }

  lemma PeriodsGrow(cfg: Config, pace: Pace, a: int, b: int)
    requires PaceOk(cfg, pace) && a <= b
    ensures Periods(cfg, pace, a) <= Periods(cfg, pace, b)
  {
    if a >= pace.quiet {
      QuotientGrows(a - pace.quiet, b - pace.quiet, Period(cfg, pace));
    }
  }

  /** Less than a period makes a difference of one at most. */
  lemma PeriodsAgo(cfg: Config, pace: Pace, a: int, now: int)
    requires PaceOk(cfg, pace) && now - Period(cfg, pace) <= a
    ensures Periods(cfg, pace, now) <= Periods(cfg, pace, a) + 1
  {
    var m := Period(cfg, pace);
    PeriodsGrow(cfg, pace, now - m, a);
    if now >= pace.quiet + m {
      QuotientShift(now - m - pace.quiet, m);
    } else if now >= pace.quiet {
      QuotientShift(now - pace.quiet, m);
    }
  }

  // ---------------------------------------------------------------- walks that grow with time

  /** The cost is that of a walk from `via` to the target with at least `n` nodes. */
  ghost predicate LongWay(cfg: Config, links: Links, via: NodeId, target: NodeId, cost: real, n: nat)
  {
    exists p :: Joins(links, p, via, target) && Weight(cfg.imp, p) == cost && |p| >= n
  }

  /** A direct route dates from its registration, and any other has spent a period on every link. */
  ghost predicate AgedEntry(cfg: Config, pace: Pace, links: Links, k: RouteKey, e: Entry)
    requires PaceOk(cfg, pace)
  {
    if k.target == k.via then e.seen <= pace.quiet && LongWay(cfg, links, k.via, k.target, e.cost, 1)
    else LongWay(cfg, links, k.via, k.target, e.cost, 2 + Periods(cfg, pace, e.seen - pace.delay))
  }

  ghost predicate AgedTable(cfg: Config, pace: Pace, links: Links, t: Table)
    requires PaceOk(cfg, pace)
  {
    forall k :: k in t ==> AgedEntry(cfg, pace, links, k, t[k])
  }

  ghost predicate AgedAdvert(cfg: Config, pace: Pace, links: Links, a: Advert)
    requires PaceOk(cfg, pace)
  {
    exists via :: (a.from, via) in links && LongWay(cfg, links, via, a.target, a.cost, 1 + Periods(cfg, pace, a.at))
  }

  ghost predicate Aged(cfg: Config, pace: Pace, s: Net)
    requires PaceOk(cfg, pace)
  {
    && (forall u :: u in s.tables ==> AgedTable(cfg, pace, s.links, s.tables[u]))
    && (forall a :: a in s.adverts ==> AgedAdvert(cfg, pace, s.links, a))
  }

  lemma LongWayMonotone(cfg: Config, links: Links, more: Links, via: NodeId, target: NodeId, cost: real, n: nat, m: nat)
    requires LongWay(cfg, links, via, target, cost, n) && links <= more && m <= n
    ensures LongWay(cfg, more, via, target, cost, m)
  {
    var p :| Joins(links, p, via, target) && Weight(cfg.imp, p) == cost && |p| >= n;
    WalkMonotone(links, more, p);
    assert Joins(more, p, via, target);
  }

  lemma EntryMonotone(cfg: Config, pace: Pace, links: Links, more: Links, k: RouteKey, e: Entry)
    requires PaceOk(cfg, pace) && AgedEntry(cfg, pace, links, k, e) && links <= more
    ensures AgedEntry(cfg, pace, more, k, e)
  {
    var n := if k.target == k.via then 1 else 2 + Periods(cfg, pace, e.seen - pace.delay);
    LongWayMonotone(cfg, links, more, k.via, k.target, e.cost, n, n);
  }

  lemma ConnectAges(cfg: Config, pace: Pace, s: Net, u: NodeId, v: NodeId)
    requires PaceOk(cfg, pace) && Aged(cfg, pace, s)
    ensures Aged(cfg, pace, Apply(cfg, s, Connect(u, v)))
  {
    hide LongWay, AgedEntry, Periods;
    var more := Apply(cfg, s, Connect(u, v)).links;
    forall n, k | n in s.tables && k in s.tables[n] ensures AgedEntry(cfg, pace, more, k, s.tables[n][k]) {
      assert AgedTable(cfg, pace, s.links, s.tables[n]);
      EntryMonotone(cfg, pace, s.links, more, k, s.tables[n][k]);
    }
    forall a | a in s.adverts ensures AgedAdvert(cfg, pace, more, a) {
      assert AgedAdvert(cfg, pace, s.links, a);
      var via :| (a.from, via) in s.links && LongWay(cfg, s.links, via, a.target, a.cost, 1 + Periods(cfg, pace, a.at));
      var n := 1 + Periods(cfg, pace, a.at);
      LongWayMonotone(cfg, s.links, more, via, a.target, a.cost, n, n);
    }
  }

  /** Changing one table so that its entries are of age keeps the state so. */
  lemma TableAges(cfg: Config, pace: Pace, s: Net, u: NodeId, t: Table)
    requires PaceOk(cfg, pace) && Aged(cfg, pace, s) && AgedTable(cfg, pace, s.links, t)
    ensures Aged(cfg, pace, SetTable(s, u, t))
  {
    hide AgedTable, AgedAdvert;
  }

  lemma TableAged(cfg: Config, pace: Pace, s: Net, u: NodeId)
    requires PaceOk(cfg, pace) && Aged(cfg, pace, s)
    ensures AgedTable(cfg, pace, s.links, TableOf(s, u))
  {
  }

  lemma RegisterAges(cfg: Config, pace: Pace, s: Net, u: NodeId, v: NodeId)
    requires PaceOk(cfg, pace) && Aged(cfg, pace, s) && (u, v) in s.links && s.clock <= pace.quiet
    ensures Aged(cfg, pace, Apply(cfg, s, Register(u, v)))
  {
    DirectJustified(cfg, s.links, u, v);
    TableAged(cfg, pace, s, u);
    var t := Learn(TableOf(s, u), v, v, DEFAULT_IMPEDANCE, s.clock);
    forall k | k in t ensures AgedEntry(cfg, pace, s.links, k, t[k]) {
      hide Joins;
      if k == RouteKey(v, v) {
        var p :| Joins(s.links, p, v, v) && Weight(cfg.imp, p) == DEFAULT_IMPEDANCE;
        SomeNode(s.links, p, v, v);
      }
    }
    TableAges(cfg, pace, s, u, t);
  }

  lemma SomeNode(links: Links, p: seq<NodeId>, from: NodeId, to: NodeId)
    requires Joins(links, p, from, to)
    ensures |p| >= 1
  {
  }

  lemma ShrinkAges(cfg: Config, pace: Pace, s: Net, u: NodeId, t: Table)
    requires PaceOk(cfg, pace) && Aged(cfg, pace, s)
    requires forall k :: k in t ==> k in TableOf(s, u) && t[k] == TableOf(s, u)[k]
    ensures Aged(cfg, pace, SetTable(s, u, t))
  {
    hide AgedEntry;
    TableAged(cfg, pace, s, u);
    TableAges(cfg, pace, s, u, t);
  }

  /** What a purge leaves is of age: a node on the walk for every period that has passed. */
  lemma FreshIsLong(cfg: Config, pace: Pace, links: Links, t: Table, now: int, k: RouteKey)
    requires PaceOk(cfg, pace) && AgedTable(cfg, pace, links, t) && k in Fresh(t, now - 3 * cfg.interval)
    ensures LongWay(cfg, links, k.via, k.target, t[k].cost, 1 + Periods(cfg, pace, now))
    ensures now >= pace.quiet + 3 * cfg.interval ==> k.target != k.via
  {
    hide LongWay;
    assert AgedEntry(cfg, pace, links, k, t[k]);
    var n := if k.target == k.via then 1 else 2 + Periods(cfg, pace, t[k].seen - pace.delay);
    if k.target == k.via {
      if now >= pace.quiet {
        QuotientShift(now - pace.quiet, Period(cfg, pace));
      }
    } else {
      PeriodsAgo(cfg, pace, t[k].seen - pace.delay, now);
    }
    LongWayMonotone(cfg, links, links, k.via, k.target, t[k].cost, n, 1 + Periods(cfg, pace, now));
  }

  lemma GossipAges(cfg: Config, pace: Pace, s: Net, u: NodeId, budget: int, routes: seq<GossipRoute>)
    requires PaceOk(cfg, pace) && Aged(cfg, pace, s) && Inv(cfg, s)
    requires Enabled(cfg, s, Gossip(u, budget, routes)) && InPace(cfg, pace, s, Gossip(u, budget, routes))
    ensures Aged(cfg, pace, Apply(cfg, s, Gossip(u, budget, routes)))
  {
    hide LongWay, Fresh, AgedTable, Periods, RouteBudget;
    var t := TableOf(s, u);
    var s' := Apply(cfg, s, Gossip(u, budget, routes));
    TableAged(cfg, pace, s, u);
    forall a | a in s'.adverts ensures AgedAdvert(cfg, pace, s.links, a) {
      if a !in s.adverts {
        var i :| 0 <= i < |routes| && a == Advert(u, cfg.imp(u), routes[i].target, routes[i].cost, s.clock);
        var via := AnsweredBy(t, routes, RouteBudget(budget), i);
        FreshIsLong(cfg, pace, s.links, t, s.clock, RouteKey(a.target, via));
        LinkedTo(cfg, s, u, RouteKey(a.target, via));
      }
    }
  }

  lemma AnsweredBy(t: Table, routes: seq<GossipRoute>, horizon: int, i: nat) returns (via: NodeId)
    requires ValidAnswer(t, routes, horizon) && i < |routes|
    ensures RouteKey(routes[i].target, via) in t && t[RouteKey(routes[i].target, via)].cost == routes[i].cost
  {
    assert IsBestCost(t, routes[i].target, routes[i].cost);
    via :| IsBest(t, routes[i].target, via) && t[RouteKey(routes[i].target, via)].cost == routes[i].cost;
  }

  lemma LinkedTo(cfg: Config, s: Net, u: NodeId, k: RouteKey)
    requires Inv(cfg, s) && k in TableOf(s, u)
    ensures (u, k.via) in s.links
  {
    assert TableOk(cfg, s, u, s.tables[u]);
    assert EntryOk(cfg, s, u, k, s.tables[u][k]);
  }

  lemma DeliverAges(cfg: Config, pace: Pace, s: Net, a: Advert, v: NodeId)
    requires PaceOk(cfg, pace) && Aged(cfg, pace, s) && Inv(cfg, s)
    requires Enabled(cfg, s, Deliver(a, v)) && InPace(cfg, pace, s, Deliver(a, v))
    ensures Aged(cfg, pace, Apply(cfg, s, Deliver(a, v)))
  {
    hide AgedAdvert, AgedEntry, LongWay, Periods;
    assert AdvertOk(cfg, s.links, a) && AgedAdvert(cfg, pace, s.links, a);
    TableAged(cfg, pace, s, v);
    var t := TableOf(s, v);
    if a.target != v {
      AbsorbOne(t, v, a.from, a.impedance, GossipRoute(a.target, a.cost), s.clock);
      var t' := Learn(t, a.target, a.from, a.cost + a.impedance, s.clock);
      LearnedIsAged(cfg, pace, s.links, a, s.clock);
      assert AgedTable(cfg, pace, s.links, t');
      TableAges(cfg, pace, s, v, t');
    } else {
      NothingAbsorbed(t, v, a.from, a.impedance, GossipRoute(a.target, a.cost), s.clock);
      TableAges(cfg, pace, s, v, t);
    }
  }

  lemma NothingAbsorbed(t: Table, self: NodeId, from: NodeId, impedance: real, r: GossipRoute, now: int)
    requires r.target == self
    ensures GradientTables.Absorb(t, self, from, impedance, [r], now) == t
  {
    assert [r][..0] == [];
  }

  /** Passing a route on makes its walk longer by the sender. */
  lemma LearnedIsAged(cfg: Config, pace: Pace, links: Links, a: Advert, now: int)
    requires PaceOk(cfg, pace) && AgedAdvert(cfg, pace, links, a) && now <= a.at + pace.delay
    requires a.impedance == cfg.imp(a.from) && a.target != a.from
    ensures AgedEntry(cfg, pace, links, RouteKey(a.target, a.from), Entry(a.cost + a.impedance, now))
  {
    hide Periods, LongWay, Joins;
    PeriodsGrow(cfg, pace, now - pace.delay, a.at);
    var n := 1 + Periods(cfg, pace, a.at);
    var via :| (a.from, via) in links && LongWay(cfg, links, via, a.target, a.cost, n);
    WayCons(cfg, links, a.from, via, a.target, a.cost, n);
    LongWayMonotone(cfg, links, links, a.from, a.target, a.cost + a.impedance, n + 1,
                    2 + Periods(cfg, pace, now - pace.delay));
  }

  lemma WayCons(cfg: Config, links: Links, from: NodeId, via: NodeId, target: NodeId, cost: real, n: nat)
    requires (from, via) in links && LongWay(cfg, links, via, target, cost, n)
    ensures LongWay(cfg, links, from, target, cost + cfg.imp(from), n + 1)
  {
    var p :| Joins(links, p, via, target) && Weight(cfg.imp, p) == cost && |p| >= n;
    WalkCons(links, from, p);
    WeightCons(cfg.imp, from, p);
    assert Joins(links, [from] + p, from, target);
  }

  lemma StepAges(cfg: Config, pace: Pace, s: Net, step: Step)
    requires PaceOk(cfg, pace) && Aged(cfg, pace, s) && Inv(cfg, s)
    requires Enabled(cfg, s, step) && InPace(cfg, pace, s, step)
    ensures Aged(cfg, pace, Apply(cfg, s, step))
  {
    hide AgedTable, AgedAdvert, Fresh, Without, ValidAnswer, Inv;
    match step
    case Connect(u, v) => ConnectAges(cfg, pace, s, u, v);
    case Register(u, v) =>
      RegisterAges(cfg, pace, s, u, v);
    case Purge(u) =>
      FreshShrinks(TableOf(s, u), s.clock - 3 * cfg.interval);
      ShrinkAges(cfg, pace, s, u, Fresh(TableOf(s, u), s.clock - 3 * cfg.interval));
    case Gossip(u, budget, routes) => GossipAges(cfg, pace, s, u, budget, routes);
    case Deliver(a, v) => DeliverAges(cfg, pace, s, a, v);
    case Lose(u, v) =>
      WithoutShrinks(TableOf(s, u), v);
      ShrinkAges(cfg, pace, s, u, Without(TableOf(s, u), v));
    case Pass(now) =>
  }

  lemma PacedFront(cfg: Config, pace: Pace, steps: seq<Step>)
    requires PacedRun(cfg, pace, steps) && steps != []
    ensures var front := steps[..|steps| - 1];
            PacedRun(cfg, pace, front) && Enabled(cfg, After(cfg, front), steps[|steps| - 1])
            && InPace(cfg, pace, After(cfg, front), steps[|steps| - 1])
  {
    hide InPace, After, Enabled;
    var last := |steps| - 1;
    var front := steps[..last];
    forall i | 0 <= i < |front| ensures InPace(cfg, pace, After(cfg, front[..i]), front[i]) {
      assert front[..i] == steps[..i];
    }
    assert InPace(cfg, pace, After(cfg, steps[..last]), steps[last]);
  }

  lemma {:induction false} RunAges(cfg: Config, pace: Pace, steps: seq<Step>)
    requires PaceOk(cfg, pace) && PacedRun(cfg, pace, steps)
    ensures Aged(cfg, pace, After(cfg, steps))
  {
    hide Aged, InPace, Apply, Enabled, PacedRun;
    if steps != [] {
      var front := steps[..|steps| - 1];
      PacedFront(cfg, pace, steps);
      RunAges(cfg, pace, front);
      RunIs(cfg, pace, front);
      RunKeepsInv(cfg, front);
      StepAges(cfg, pace, After(cfg, front), steps[|steps| - 1]);
    } else {
      NothingAged(cfg, pace);
    }
  }

  lemma RunIs(cfg: Config, pace: Pace, steps: seq<Step>)
    requires PacedRun(cfg, pace, steps)
    ensures IsRun(cfg, steps)
  {
  }

  lemma NothingAged(cfg: Config, pace: Pace)
    requires PaceOk(cfg, pace)
    ensures Aged(cfg, pace, Start())
  {
  }

  // ---------------------------------------------------------------- what every paced run shows

  /**
   Whatever survives a purge is a walk with one more link for every period since the
   last registration, a period being three intervals and the delay of a frame. So the
   costs of all targets, live neighbours included, grow without bound.
   */
  lemma AsyncCountsUp(cfg: Config, pace: Pace, steps: seq<Step>, u: NodeId, k: RouteKey)
    requires PaceOk(cfg, pace) && PacedRun(cfg, pace, steps) && Clamped(cfg.imp)
    requires k in Fresh(TableOf(After(cfg, steps), u), After(cfg, steps).clock - 3 * cfg.interval)
    ensures var s := After(cfg, steps);
            var n := 1 + Periods(cfg, pace, s.clock);
            && LongWay(cfg, s.links, k.via, k.target, TableOf(s, u)[k].cost, n)
            && TableOf(s, u)[k].cost >= n as real
  {
    hide PacedRun, After, Periods, AgedTable, IsRun;
    RunAges(cfg, pace, steps);
    var s := After(cfg, steps);
    TableAged(cfg, pace, s, u);
    FreshIsLong(cfg, pace, s.links, TableOf(s, u), s.clock, k);
    var n := 1 + Periods(cfg, pace, s.clock);
    var p :| Joins(s.links, p, k.via, k.target) && Weight(cfg.imp, p) == TableOf(s, u)[k].cost && |p| >= n;
    SumAtLeast(cfg.imp, p[..|p| - 1]);
  }

  ghost predicate NoDirect(t: Table)
  {
    forall k :: k in t ==> k.target != k.via
  }

  /** A purge three intervals after the last registration or later leaves no direct route. */
  lemma AsyncPurge(cfg: Config, pace: Pace, steps: seq<Step>, u: NodeId)
    requires PaceOk(cfg, pace) && PacedRun(cfg, pace, steps)
    requires After(cfg, steps).clock >= pace.quiet + 3 * cfg.interval
    ensures NoDirect(TableOf(After(cfg, steps + [Purge(u)]), u))
  {
    hide PacedRun, After, Periods, AgedTable, IsRun;
    RunAges(cfg, pace, steps);
    OneMoreStep(cfg, steps, Purge(u));
    var s := After(cfg, steps);
    TableAged(cfg, pace, s, u);
    forall k | k in Fresh(TableOf(s, u), s.clock - 3 * cfg.interval) ensures k.target != k.via {
      FreshIsLong(cfg, pace, s.links, TableOf(s, u), s.clock, k);
    }
  }

  lemma StepNoDirect(cfg: Config, pace: Pace, s: Net, step: Step, u: NodeId)
    requires Inv(cfg, s) && Enabled(cfg, s, step) && InPace(cfg, pace, s, step)
    requires s.clock > pace.quiet && NoDirect(TableOf(s, u))
    ensures Apply(cfg, s, step).clock > pace.quiet && NoDirect(TableOf(Apply(cfg, s, step), u))
  {
    if step.Deliver? && step.v == u {
      var a := step.advert;
      assert AdvertOk(cfg, s.links, a);
      if a.target != u {
        AbsorbOne(TableOf(s, u), u, a.from, a.impedance, GossipRoute(a.target, a.cost), s.clock);
      } else {
        NothingAbsorbed(TableOf(s, u), u, a.from, a.impedance, GossipRoute(a.target, a.cost), s.clock);
      }
    }
  }

  /** No direct route ever comes back to such a node, so no best route leads straight to its target. */
  lemma {:induction false} AsyncNeverDirect(cfg: Config, pace: Pace, steps: seq<Step>, n: nat, u: NodeId)
    requires PacedRun(cfg, pace, steps) && n <= |steps|
    requires After(cfg, steps[..n]).clock > pace.quiet && NoDirect(TableOf(After(cfg, steps[..n]), u))
    ensures After(cfg, steps).clock > pace.quiet && NoDirect(TableOf(After(cfg, steps), u))
    ensures forall t, v :: IsBest(TableOf(After(cfg, steps), u), t, v) ==> v != t
    decreases |steps|
  {
    hide Enabled, InPace, Apply, PacedRun;
    if n == |steps| {
      assert steps[..n] == steps;
    } else {
      var last := |steps| - 1;
      var front := steps[..last];
      PacedFront(cfg, pace, steps);
      assert front[..n] == steps[..n];
      AsyncNeverDirect(cfg, pace, front, n, u);
      RunIs(cfg, pace, front);
      RunKeepsInv(cfg, front);
      StepNoDirect(cfg, pace, After(cfg, front), steps[last], u);
    }
  }

  // ---------------------------------------------------------------- before three intervals have passed

  ghost predicate SeenSinceStart(s: Net)
  {
    s.clock >= 0 && forall u, k :: u in s.tables && k in s.tables[u] ==> s.tables[u][k].seen >= 0
  }

  lemma StepSeen(cfg: Config, s: Net, step: Step)
    requires SeenSinceStart(s) && Enabled(cfg, s, step)
    ensures SeenSinceStart(Apply(cfg, s, step))
  {
    hide ValidAnswer;
    if step.Deliver? {
      var a := step.advert;
      var t, r := TableOf(s, step.v), GossipRoute(a.target, a.cost);
      if a.target != step.v {
        AbsorbOne(t, step.v, a.from, a.impedance, r, s.clock);
      } else {
        NothingAbsorbed(t, step.v, a.from, a.impedance, r, s.clock);
      }
    }
  }

  lemma {:induction false} RunSeen(cfg: Config, steps: seq<Step>)
    requires IsRun(cfg, steps)
    ensures SeenSinceStart(After(cfg, steps))
  {
    hide Enabled, Apply, SeenSinceStart;
    if steps != [] {
      RunSeen(cfg, steps[..|steps| - 1]);
      StepSeen(cfg, After(cfg, steps[..|steps| - 1]), steps[|steps| - 1]);
    } else {
      NothingSeenYet();
    }
  }

  lemma NothingSeenYet()
    ensures SeenSinceStart(Start())
  {
  }

  /** In the first three intervals of any run, whenever its nodes tick, purging drops nothing. */
  lemma AsyncNothingExpires(cfg: Config, steps: seq<Step>, u: NodeId)
    requires IsRun(cfg, steps) && After(cfg, steps).clock < 3 * cfg.interval
    ensures TableOf(After(cfg, steps + [Purge(u)]), u) == TableOf(After(cfg, steps), u)
  {
    hide After, IsRun;
    RunSeen(cfg, steps);
    OneMoreStep(cfg, steps, Purge(u));
  }
}
