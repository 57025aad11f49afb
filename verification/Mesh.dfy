/** Impedance routing as an asynchronous protocol. */
module Mesh {
  // A run is any sequence of steps of any nodes: links come up, peers register,
  // nodes purge and gossip, single advertised routes arrive late, twice, out of
  // order or never, peers are lost and time passes. The steps change tables by the
  // functions that the methods of `GradientTables.GradientTable` are proved to
  // compute.

  import opened Routes
  import opened Walks
  import GradientTables

  /** Fixed impedances, and the gossip interval that purging is tied to. */
  datatype Config = Config(imp: NodeId -> real, interval: int)

  /** One route of a gossip frame that has been sent, and when. */
  datatype Advert = Advert(from: NodeId, impedance: real, target: NodeId, cost: real, at: int)

  datatype Net = Net(
    clock: int,
    tables: map<NodeId, Table>,
    links: Links,                             // links that ever came up
    adverts: set<Advert>,                     // routes ever sent
    joined: map<(NodeId, NodeId), int>)       // when a node last registered a peer

  datatype Step =
    | Connect(u: NodeId, v: NodeId)
    | Register(u: NodeId, v: NodeId)
    | Purge(u: NodeId)
    | Gossip(u: NodeId, budget: int, routes: seq<GossipRoute>)
    | Deliver(advert: Advert, v: NodeId)
    | Lose(u: NodeId, v: NodeId)
    | Pass(now: int)

  const DEFAULT_IMPEDANCE := 1.0

  function TableOf(s: Net, u: NodeId): Table
  {
    if u in s.tables then s.tables[u] else map[]
  }

  ghost predicate Enabled(cfg: Config, s: Net, step: Step)
  {
    match step
    case Connect(u, v) => u != v
    case Register(u, v) => (u, v) in s.links
    case Purge(u) => true
    case Gossip(u, budget, routes) => ValidAnswer(TableOf(s, u), routes, RouteBudget(budget))
    case Deliver(a, v) => a in s.adverts && (v, a.from) in s.links
    case Lose(u, v) => true
    case Pass(now) => now >= s.clock
  }

  function SetTable(s: Net, u: NodeId, t: Table): Net
  {
    s.(tables := s.tables[u := t])
  }

  function AdvertsOf(cfg: Config, u: NodeId, routes: seq<GossipRoute>, at: int): set<Advert>
  {
    set r | r in routes :: Advert(u, cfg.imp(u), r.target, r.cost, at)
  }

  function Apply(cfg: Config, s: Net, step: Step): Net
  {
    match step
    case Connect(u, v) => s.(links := s.links + {(u, v), (v, u)})
    case Register(u, v) =>
      SetTable(s, u, Learn(TableOf(s, u), v, v, DEFAULT_IMPEDANCE, s.clock)).(joined := s.joined[(u, v) := s.clock])
    case Purge(u) => SetTable(s, u, Fresh(TableOf(s, u), s.clock - 3 * cfg.interval))
    case Gossip(u, budget, routes) => s.(adverts := s.adverts + AdvertsOf(cfg, u, routes, s.clock))
    case Deliver(a, v) =>
      SetTable(s, v, GradientTables.Absorb(TableOf(s, v), v, a.from, a.impedance, [GossipRoute(a.target, a.cost)], s.clock))
    case Lose(u, v) => SetTable(s, u, Without(TableOf(s, u), v))
    case Pass(now) => s.(clock := now)
  }

  function Start(): Net
  {
    Net(0, map[], {}, {}, map[])
  }

  function After(cfg: Config, steps: seq<Step>): Net
  {
    if steps == [] then Start() else Apply(cfg, After(cfg, steps[..|steps| - 1]), steps[|steps| - 1])
  }

  ghost predicate IsRun(cfg: Config, steps: seq<Step>)
  {
    steps == [] ||
    (IsRun(cfg, steps[..|steps| - 1]) && Enabled(cfg, After(cfg, steps[..|steps| - 1]), steps[|steps| - 1]))
  }

  // ---------------------------------------------------------------- invariant

  /** The cost is the weight of a walk over known links from the next hop to the target. */
  ghost predicate Justified(cfg: Config, links: Links, u: NodeId, target: NodeId, via: NodeId, cost: real)
  {
    && (u, via) in links
    && exists p :: Joins(links, p, via, target) && Weight(cfg.imp, p) == cost
  }

  ghost predicate LinksOk(links: Links)
  {
    forall u, v :: (u, v) in links ==> (v, u) in links && u != v
  }

  ghost predicate EntryOk(cfg: Config, s: Net, u: NodeId, k: RouteKey, e: Entry)
  {
    && k.target != u
    && Justified(cfg, s.links, u, k.target, k.via, e.cost)
    && (k.target == k.via ==> (u, k.via) in s.joined && e.seen == s.joined[(u, k.via)])
  }

  ghost predicate TableOk(cfg: Config, s: Net, u: NodeId, t: Table)
  {
    forall k :: k in t ==> EntryOk(cfg, s, u, k, t[k])
  }

  ghost predicate AdvertOk(cfg: Config, links: Links, a: Advert)
  {
    && a.impedance == cfg.imp(a.from)
    && a.target != a.from
    && exists via :: Justified(cfg, links, a.from, a.target, via, a.cost)
  }

  ghost predicate Inv(cfg: Config, s: Net)
  {
    && LinksOk(s.links)
    && (forall u :: u in s.tables ==> TableOk(cfg, s, u, s.tables[u]))
    && (forall a :: a in s.adverts ==> AdvertOk(cfg, s.links, a))
  }

  lemma JustifiedMonotone(cfg: Config, links: Links, more: Links, u: NodeId, target: NodeId, via: NodeId, cost: real)
    requires Justified(cfg, links, u, target, via, cost) && links <= more
    ensures Justified(cfg, more, u, target, via, cost)
  {
    var p :| Joins(links, p, via, target) && Weight(cfg.imp, p) == cost;
    WalkMonotone(links, more, p);
    assert Joins(more, p, via, target);
  }

  lemma ConnectKeepsInv(cfg: Config, s: Net, u: NodeId, v: NodeId)
    requires Inv(cfg, s) && u != v
    ensures Inv(cfg, Apply(cfg, s, Connect(u, v)))
  {
    var s' := Apply(cfg, s, Connect(u, v));
    forall n | n in s'.tables ensures TableOk(cfg, s', n, s'.tables[n]) {
      assert TableOk(cfg, s, n, s.tables[n]);
      forall k | k in s'.tables[n] ensures EntryOk(cfg, s', n, k, s'.tables[n][k]) {
        assert EntryOk(cfg, s, n, k, s.tables[n][k]);
        JustifiedMonotone(cfg, s.links, s'.links, n, k.target, k.via, s.tables[n][k].cost);
      }
    }
    forall a | a in s'.adverts ensures AdvertOk(cfg, s'.links, a) {
      assert AdvertOk(cfg, s.links, a);
      var via :| Justified(cfg, s.links, a.from, a.target, via, a.cost);
      JustifiedMonotone(cfg, s.links, s'.links, a.from, a.target, via, a.cost);
    }
  }

  /** Registering sets the direct entry; entries of other pairs keep their registration times. */
  lemma RegisterKeepsInv(cfg: Config, s: Net, u: NodeId, v: NodeId)
    requires Inv(cfg, s) && (u, v) in s.links
    ensures Inv(cfg, Apply(cfg, s, Register(u, v)))
  {
    var s' := Apply(cfg, s, Register(u, v));
    DirectJustified(cfg, s.links, u, v);
    forall n | n in s'.tables ensures TableOk(cfg, s', n, s'.tables[n]) {
      assert TableOk(cfg, s, n, TableOf(s, n));
      forall k | k in s'.tables[n] ensures EntryOk(cfg, s', n, k, s'.tables[n][k]) {
        if !(n == u && k == RouteKey(v, v)) {
          assert EntryOk(cfg, s, n, k, TableOf(s, n)[k]);
        }
      }
    }
  }

  lemma DirectJustified(cfg: Config, links: Links, u: NodeId, v: NodeId)
    requires (u, v) in links
    ensures Justified(cfg, links, u, v, v, DEFAULT_IMPEDANCE)
  {
    assert Joins(links, [v], v, v);
    assert [v][..0] == [];
    assert Weight(cfg.imp, [v]) == 1.0;
  }

  /** Entries that stay as they were stay justified. */
  lemma ShrinkKeepsInv(cfg: Config, s: Net, u: NodeId, t: Table)
    requires Inv(cfg, s)
    requires forall k :: k in t ==> k in TableOf(s, u) && t[k] == TableOf(s, u)[k]
    ensures Inv(cfg, SetTable(s, u, t))
  {
    var s' := SetTable(s, u, t);
    forall n | n in s'.tables ensures TableOk(cfg, s', n, s'.tables[n]) {
      assert TableOk(cfg, s, n, TableOf(s, n));
      forall k | k in s'.tables[n] ensures EntryOk(cfg, s', n, k, s'.tables[n][k]) {
        assert EntryOk(cfg, s, n, k, TableOf(s, n)[k]);
      }
    }
  }

  lemma GossipKeepsInv(cfg: Config, s: Net, u: NodeId, budget: int, routes: seq<GossipRoute>)
    requires Inv(cfg, s) && Enabled(cfg, s, Gossip(u, budget, routes))
    ensures Inv(cfg, Apply(cfg, s, Gossip(u, budget, routes)))
  {
    var t := TableOf(s, u);
    var s' := Apply(cfg, s, Gossip(u, budget, routes));
    forall a | a in s'.adverts ensures AdvertOk(cfg, s'.links, a) {
      if a !in s.adverts {
        var i :| 0 <= i < |routes| && a == Advert(u, cfg.imp(u), routes[i].target, routes[i].cost, s.clock);
        assert IsBestCost(t, a.target, a.cost);
        var via :| IsBest(t, a.target, via) && t[RouteKey(a.target, via)].cost == a.cost;
        assert TableOk(cfg, s, u, t);
        assert EntryOk(cfg, s, u, RouteKey(a.target, via), t[RouteKey(a.target, via)]);
      }
    }
    forall n | n in s'.tables ensures TableOk(cfg, s', n, s'.tables[n]) {
      assert TableOk(cfg, s, n, s.tables[n]);
      forall k | k in s'.tables[n] ensures EntryOk(cfg, s', n, k, s'.tables[n][k]) {
        assert EntryOk(cfg, s, n, k, s.tables[n][k]);
      }
    }
  }

  /** Adding the sender's impedance extends the walk by the sender. */
  lemma HopJustified(cfg: Config, links: Links, a: Advert, v: NodeId)
    requires AdvertOk(cfg, links, a) && (v, a.from) in links
    ensures Justified(cfg, links, v, a.target, a.from, a.cost + a.impedance)
  {
    var via :| Justified(cfg, links, a.from, a.target, via, a.cost);
    var p :| Joins(links, p, via, a.target) && Weight(cfg.imp, p) == a.cost;
    WalkCons(links, a.from, p);
    WeightCons(cfg.imp, a.from, p);
    assert Joins(links, [a.from] + p, a.from, a.target);
  }

  lemma DeliverKeepsInv(cfg: Config, s: Net, a: Advert, v: NodeId)
    requires Inv(cfg, s) && a in s.adverts && (v, a.from) in s.links
    ensures Inv(cfg, Apply(cfg, s, Deliver(a, v)))
  {
    var s' := Apply(cfg, s, Deliver(a, v));
    assert AdvertOk(cfg, s.links, a);
    HopJustified(cfg, s.links, a, v);
    var routes := [GossipRoute(a.target, a.cost)];
    var t := TableOf(s, v);
    assert routes[..|routes| - 1] == [];
    assert GradientTables.Absorb(t, v, a.from, a.impedance, [], s.clock) == t;
    assert s'.tables[v] == if a.target == v then t else Learn(t, a.target, a.from, a.cost + a.impedance, s.clock);
    forall n | n in s'.tables ensures TableOk(cfg, s', n, s'.tables[n]) {
      assert TableOk(cfg, s, n, TableOf(s, n));
      forall k | k in s'.tables[n] ensures EntryOk(cfg, s', n, k, s'.tables[n][k]) {
        if k in TableOf(s, n) {
          assert EntryOk(cfg, s, n, k, TableOf(s, n)[k]);
        }
      }
    }
  }

  lemma StepKeepsInv(cfg: Config, s: Net, step: Step)
    requires Inv(cfg, s) && Enabled(cfg, s, step)
    ensures Inv(cfg, Apply(cfg, s, step))
  {
    hide Inv, Justified, Fresh, Without, ValidAnswer;
    match step
    case Connect(u, v) => ConnectKeepsInv(cfg, s, u, v);
    case Register(u, v) => RegisterKeepsInv(cfg, s, u, v);
    case Purge(u) =>
      FreshShrinks(TableOf(s, u), s.clock - 3 * cfg.interval);
      ShrinkKeepsInv(cfg, s, u, Fresh(TableOf(s, u), s.clock - 3 * cfg.interval));
    case Gossip(u, budget, routes) => GossipKeepsInv(cfg, s, u, budget, routes);
    case Deliver(a, v) => DeliverKeepsInv(cfg, s, a, v);
    case Lose(u, v) =>
      WithoutShrinks(TableOf(s, u), v);
      ShrinkKeepsInv(cfg, s, u, Without(TableOf(s, u), v));
    case Pass(now) => PassKeepsInv(cfg, s, now);
  }

  lemma WithoutShrinks(t: Table, v: NodeId)
    ensures forall k :: k in Without(t, v) ==> k in t && Without(t, v)[k] == t[k]
  {
  }

  lemma FreshShrinks(t: Table, cutoff: int)
    ensures forall k :: k in Fresh(t, cutoff) ==> k in t && Fresh(t, cutoff)[k] == t[k]
  {
  }

  lemma PassKeepsInv(cfg: Config, s: Net, now: int)
    requires Inv(cfg, s)
    ensures Inv(cfg, s.(clock := now))
  {
    var s' := s.(clock := now);
    forall n | n in s'.tables ensures TableOk(cfg, s', n, s'.tables[n]) {
      assert TableOk(cfg, s, n, s.tables[n]);
      forall k | k in s'.tables[n] ensures EntryOk(cfg, s', n, k, s'.tables[n][k]) {
        assert EntryOk(cfg, s, n, k, s.tables[n][k]);
      }
    }
  }

  lemma {:induction false} RunKeepsInv(cfg: Config, steps: seq<Step>)
    requires IsRun(cfg, steps)
    ensures Inv(cfg, After(cfg, steps))
  {
    if steps != [] {
      RunKeepsInv(cfg, steps[..|steps| - 1]);
      StepKeepsInv(cfg, After(cfg, steps[..|steps| - 1]), steps[|steps| - 1]);
    }
  }

  // ---------------------------------------------------------------- what every run keeps

  /**
   In every run, every stored route is a real walk: it starts at the next hop,
   which is a neighbour, ends at the target, uses links that came up, and its
   weight is the stored cost. No node stores a route to itself.
   */
  lemma RoutesAreWalks(cfg: Config, steps: seq<Step>, u: NodeId, k: RouteKey)
    requires IsRun(cfg, steps) && k in TableOf(After(cfg, steps), u)
    ensures k.target != u
    ensures var s := After(cfg, steps);
            exists p :: Joins(s.links, [u] + p, u, k.target) && p != [] && p[0] == k.via
                        && Weight(cfg.imp, p) == TableOf(s, u)[k].cost
  {
    RunKeepsInv(cfg, steps);
    var s := After(cfg, steps);
    assert TableOk(cfg, s, u, s.tables[u]);
    assert EntryOk(cfg, s, u, k, s.tables[u][k]);
    var p :| Joins(s.links, p, k.via, k.target) && Weight(cfg.imp, p) == s.tables[u][k].cost;
    WalkCons(s.links, u, p);
  }

  /** No stored route is cheaper than the cheapest walk over links that ever came up. */
  lemma NoRouteTooCheap(cfg: Config, steps: seq<Step>, u: NodeId, k: RouteKey, bound: real)
    requires IsRun(cfg, steps) && k in TableOf(After(cfg, steps), u)
    requires forall q :: |q| > 1 && Joins(After(cfg, steps).links, q, u, k.target) ==> Weight(cfg.imp, q[1..]) >= bound
    ensures TableOf(After(cfg, steps), u)[k].cost >= bound
  {
    RoutesAreWalks(cfg, steps, u, k);
    var s := After(cfg, steps);
    var p :| Joins(s.links, [u] + p, u, k.target) && p != [] && p[0] == k.via
             && Weight(cfg.imp, p) == TableOf(s, u)[k].cost;
    assert ([u] + p)[1..] == p;
  }

  /**
   Gossip never refreshes a direct route: right after the purge that opens a
   gossip tick of `u`, a direct route to `v` is there exactly when it was there
   before and `u` registered `v` less than three gossip intervals ago.
   */
  lemma DirectRouteExpires(cfg: Config, steps: seq<Step>, u: NodeId, v: NodeId)
    requires IsRun(cfg, steps)
    ensures IsRun(cfg, steps + [Purge(u)])
    ensures var s := After(cfg, steps);
            var s' := After(cfg, steps + [Purge(u)]);
            RouteKey(v, v) in TableOf(s', u) <==>
            && RouteKey(v, v) in TableOf(s, u)
            && (u, v) in s.joined && s.clock - s.joined[(u, v)] < 3 * cfg.interval
  {
    var s := After(cfg, steps);
    RunKeepsInv(cfg, steps);
    var more := steps + [Purge(u)];
    assert more[..|more| - 1] == steps;
    if RouteKey(v, v) in TableOf(s, u) {
      assert TableOk(cfg, s, u, s.tables[u]);
      assert EntryOk(cfg, s, u, RouteKey(v, v), s.tables[u][RouteKey(v, v)]);
    }
  }

  /**
   So a live neighbour is forgotten: three intervals after it registered, with
   the link up and no loss ever, the tick drops the only direct route to it.
   */
  lemma LiveNeighborForgotten(cfg: Config, u: NodeId, v: NodeId)
    requires u != v && cfg.interval >= 0
    ensures var steps := [Connect(u, v), Register(u, v), Pass(3 * cfg.interval), Purge(u)];
            && IsRun(cfg, steps)
            && RouteKey(v, v) in TableOf(After(cfg, steps[..3]), u)
            && RouteKey(v, v) !in TableOf(After(cfg, steps), u)
            && (u, v) in After(cfg, steps).links
  {
    var s1, s2, s3 := [Connect(u, v)], [Connect(u, v), Register(u, v)], [Connect(u, v), Register(u, v), Pass(3 * cfg.interval)];
    var steps := s3 + [Purge(u)];
    assert s1[..0] == [] && s2[..1] == s1 && s3[..2] == s2 && steps[..3] == s3;
    assert After(cfg, s1) == Apply(cfg, Start(), Connect(u, v));
    assert After(cfg, s2) == Apply(cfg, After(cfg, s1), Register(u, v));
    assert After(cfg, s3) == Apply(cfg, After(cfg, s2), Pass(3 * cfg.interval));
    assert IsRun(cfg, s1) && IsRun(cfg, s2) && IsRun(cfg, s3);
    assert steps == [Connect(u, v), Register(u, v), Pass(3 * cfg.interval), Purge(u)];
  }

  // ---------------------------------------------------------------- a forwarding loop with every link up

  lemma OneMoreStep(cfg: Config, steps: seq<Step>, step: Step)
    ensures After(cfg, steps + [step]) == Apply(cfg, After(cfg, steps), step)
    ensures IsRun(cfg, steps + [step]) <==> IsRun(cfg, steps) && Enabled(cfg, After(cfg, steps), step)
  {
    var more := steps + [step];
    assert more[..|more| - 1] == steps;
  }

  lemma AbsorbOne(t: Table, self: NodeId, from: NodeId, impedance: real, r: GossipRoute, now: int)
    requires r.target != self
    ensures GradientTables.Absorb(t, self, from, impedance, [r], now) == Learn(t, r.target, from, r.cost + impedance, now)
  {
    assert [r][..0] == [];
  }

  /** A table with one entry for each of two targets has one answer up to order. */
  lemma TwoRoutes(t: Table, x: RouteKey, y: RouteKey, horizon: int)
    requires t.Keys == {x, y} && x.target != y.target && horizon >= 2
    ensures ValidAnswer(t, [GossipRoute(x.target, t[x].cost), GossipRoute(y.target, t[y].cost)], horizon)
  {
    var routes := [GossipRoute(x.target, t[x].cost), GossipRoute(y.target, t[y].cost)];
    assert x in t && y in t;
    assert Targets(t) == {x.target, y.target};
    assert IsBest(t, x.target, x.via) && IsBest(t, y.target, y.via);
    assert routes[0] in routes && routes[1] in routes;
    assert x.target in Named(routes) && y.target in Named(routes);
    forall i | 0 <= i < |routes|
      ensures routes[i].target in Targets(t) && IsBestCost(t, routes[i].target, routes[i].cost)
    {
      assert i == 0 || i == 1;
    }
  }

  /** The links of a path of three nodes come up and all peers register. */
  lemma PathUp(cfg: Config, a: NodeId, b: NodeId, c: NodeId) returns (steps: seq<Step>)
    requires a != b && a != c && b != c
    ensures IsRun(cfg, steps) && Lossless(steps)
    ensures var s := After(cfg, steps);
            && s.clock == 0 && s.links == PathLinks(a, b, c)
            && TableOf(s, a) == map[RouteKey(b, b) := Entry(DEFAULT_IMPEDANCE, 0)]
            && TableOf(s, b) == map[RouteKey(a, a) := Entry(DEFAULT_IMPEDANCE, 0), RouteKey(c, c) := Entry(DEFAULT_IMPEDANCE, 0)]
  {
    hide IsRun, After;
    steps := [];
    NoSteps(cfg);
    OneMoreStep(cfg, steps, Connect(a, b));
    steps := steps + [Connect(a, b)];
    OneMoreStep(cfg, steps, Connect(b, c));
    steps := steps + [Connect(b, c)];
    OneMoreStep(cfg, steps, Register(a, b));
    steps := steps + [Register(a, b)];
    OneMoreStep(cfg, steps, Register(b, a));
    steps := steps + [Register(b, a)];
    OneMoreStep(cfg, steps, Register(b, c));
    steps := steps + [Register(b, c)];
    OneMoreStep(cfg, steps, Register(c, b));
    steps := steps + [Register(c, b)];
  }

  lemma NoSteps(cfg: Config)
    ensures IsRun(cfg, []) && After(cfg, []) == Start()
  {
  }

  function PathLinks(a: NodeId, b: NodeId, c: NodeId): Links
  {
    {(a, b), (b, a), (b, c), (c, b)}
  }

  ghost predicate Lossless(steps: seq<Step>)
  {
    forall i :: 0 <= i < |steps| ==> !steps[i].Lose?
  }

  /** `u` sends the two routes it has and `v` takes in the one for the target of `y`. */
  lemma SendTwo(cfg: Config, steps: seq<Step>, u: NodeId, x: RouteKey, y: RouteKey, v: NodeId) returns (more: seq<Step>)
    requires IsRun(cfg, steps) && Lossless(steps) && (v, u) in After(cfg, steps).links
    requires TableOf(After(cfg, steps), u).Keys == {x, y} && x.target != y.target && y.target != v && u != v
    ensures IsRun(cfg, more) && Lossless(more)
    ensures var s, s' := After(cfg, steps), After(cfg, more);
            && s'.clock == s.clock && s'.links == s.links
            && TableOf(s', v) == Learn(TableOf(s, v), y.target, u, TableOf(s, u)[y].cost + cfg.imp(u), s.clock)
            && forall n :: n != v ==> TableOf(s', n) == TableOf(s, n)
  {
    hide IsRun, After, ValidAnswer, RouteBudget;
    var s := After(cfg, steps);
    var t := TableOf(s, u);
    var route := GossipRoute(y.target, t[y].cost);
    var routes := [GossipRoute(x.target, t[x].cost), route];
    DefaultBudget();
    TwoRoutes(t, x, y, RouteBudget(DEFAULT_GOSSIP_FRAME_BUDGET));
    var send := Gossip(u, DEFAULT_GOSSIP_FRAME_BUDGET, routes);
    OneMoreStep(cfg, steps, send);
    var advert := Advert(u, cfg.imp(u), y.target, t[y].cost, s.clock);
    assert routes[1] in routes && advert in AdvertsOf(cfg, u, routes, s.clock);
    OneMoreStep(cfg, steps + [send], Deliver(advert, v));
    more := steps + [send] + [Deliver(advert, v)];
    AbsorbOne(TableOf(s, v), v, u, cfg.imp(u), route, s.clock);
  }

  lemma DefaultBudget()
    ensures RouteBudget(DEFAULT_GOSSIP_FRAME_BUDGET) >= 2
  {
  }

  /**
   Gossip can bring a forgotten neighbour back as a loop. On a path a-b-c whose links
   stay up, b and a gossip once, two intervals after all peers registered; one interval
   later both purge. Then the only route to c leads from a to b, and from b to a.
   */
  lemma PurgeMakesLoop(cfg: Config, a: NodeId, b: NodeId, c: NodeId) returns (steps: seq<Step>)
    requires a != b && a != c && b != c && cfg.interval > 0
    ensures IsRun(cfg, steps) && Lossless(steps)
    ensures var s := After(cfg, steps);
            && s.links == PathLinks(a, b, c) && s.clock == 3 * cfg.interval
            && IsBest(TableOf(s, a), c, b) && IsBest(TableOf(s, b), c, a)
  {
    hide IsRun, After;
    steps := PathUp(cfg, a, b, c);
    OneMoreStep(cfg, steps, Pass(2 * cfg.interval));
    steps := steps + [Pass(2 * cfg.interval)];
    steps := SendTwo(cfg, steps, b, RouteKey(a, a), RouteKey(c, c), a);
    steps := SendTwo(cfg, steps, a, RouteKey(b, b), RouteKey(c, b), b);
    OneMoreStep(cfg, steps, Pass(3 * cfg.interval));
    steps := steps + [Pass(3 * cfg.interval)];
    OneMoreStep(cfg, steps, Purge(a));
    steps := steps + [Purge(a)];
    OneMoreStep(cfg, steps, Purge(b));
    steps := steps + [Purge(b)];
  }
}
