/**
 What a routing table means: one entry for each (target, next hop) pair, the
 cheapest cost of each target, and the gossip answers that may be given for it.
 Costs are reals and times are integers.
 */
module Routes {
  import opened Arithmetic
  import opened Wrappers
  import opened Ordering

  datatype NodeId = NodeId(name: string)

  /** The order `sort.Strings` puts node identifiers in. */
  predicate Before(a: NodeId, b: NodeId)
  {
    Less(a.name, b.name)
  }

  lemma BeforeIsStrictOrder()
    ensures StrictOrder(Before) && WeakOrder(Before)
  {
    LessIsStrictOrder();
    assert forall a: NodeId, b: NodeId :: a.name == b.name ==> a == b;
    StrictIsWeak(Before);
  }

  /** The capability strings one node advertises. */
  datatype CapList = CapList(items: seq<string>)

  datatype PathEntry = PathEntry(nextHop: NodeId, totalCost: real, lastSeen: int)
  datatype PathCost = PathCost(nextHop: NodeId, totalCost: real)
  datatype GossipRoute = GossipRoute(target: NodeId, cost: real)
  datatype RouteKey = RouteKey(target: NodeId, via: NodeId)
  datatype Entry = Entry(cost: real, seen: int)

  type Capabilities = map<NodeId, CapList>

  // ---------------------------------------------------------------- tables

  type Table = map<RouteKey, Entry>

  function Learn(t: Table, target: NodeId, via: NodeId, cost: real, now: int): Table
  {
    t[RouteKey(target, via) := Entry(cost, now)]
  }

  function Without(t: Table, via: NodeId): Table
  {
    map k | k in t && k.via != via :: t[k]
  }

  function Fresh(t: Table, cutoff: int): Table
  {
    map k | k in t && t[k].seen > cutoff :: t[k]
  }

  function Targets(t: Table): set<NodeId>
  {
    set k | k in t :: k.target
  }

  ghost predicate IsBest(t: Table, target: NodeId, via: NodeId)
  {
    && RouteKey(target, via) in t
    && forall k :: k in t && k.target == target ==> t[RouteKey(target, via)].cost <= t[k].cost
  }

  ghost predicate IsBestCost(t: Table, target: NodeId, cost: real)
  {
    exists via :: IsBest(t, target, via) && t[RouteKey(target, via)].cost == cost
  }

  lemma BestCostUnique(t: Table, target: NodeId, c: real, d: real)
    requires IsBestCost(t, target, c) && IsBestCost(t, target, d)
    ensures c == d
  {
    var v :| IsBest(t, target, v) && t[RouteKey(target, v)].cost == c;
    var w :| IsBest(t, target, w) && t[RouteKey(target, w)].cost == d;
  }

  /** A target with an entry has a cheapest entry. */
  lemma {:induction false} BestExists(t: Table, target: NodeId)
    requires target in Targets(t)
    ensures exists via :: IsBest(t, target, via)
    decreases |t|
  {
    var k :| k in t && k.target == target;
    if forall k' :: k' in t && k'.target == target ==> t[k].cost <= t[k'].cost {
      assert k == RouteKey(target, k.via);
      assert IsBest(t, target, k.via);
    } else {
      var k' :| k' in t && k'.target == target && t[k'].cost < t[k].cost;
      var rest := t - {k};
      assert k' in rest;
      BestExists(rest, target);
      var via :| IsBest(rest, target, via);
      assert rest[RouteKey(target, via)].cost <= rest[k'].cost;
      assert IsBest(t, target, via);
    }
  }

  ghost function BestCost(t: Table, target: NodeId): (c: real)
    requires target in Targets(t)
    ensures IsBestCost(t, target, c)
  {
    BestExists(t, target);
    var via :| IsBest(t, target, via);
    t[RouteKey(target, via)].cost
  }

  lemma BestEntry(t: Table, target: NodeId) returns (via: NodeId)
    requires target in Targets(t)
    ensures IsBest(t, target, via) && t[RouteKey(target, via)].cost == BestCost(t, target)
  {
    assert IsBestCost(t, target, BestCost(t, target));
    via :| IsBest(t, target, via) && t[RouteKey(target, via)].cost == BestCost(t, target);
  }

  lemma BestAtMost(t: Table, k: RouteKey)
    requires k in t
    ensures k.target in Targets(t) && BestCost(t, k.target) <= t[k].cost
  {
    assert k.target in Targets(t);
    var via := BestEntry(t, k.target);
  }

  /** Same entries at the same costs; only the refresh times may differ. */
  ghost predicate SameCosts(t: Table, t': Table)
  {
    && t.Keys == t'.Keys
    && forall k :: k in t ==> t[k].cost == t'[k].cost
  }

  lemma SameCostsSameBest(t: Table, t': Table, target: NodeId, via: NodeId)
    requires SameCosts(t, t')
    ensures IsBest(t, target, via) <==> IsBest(t', target, via)
  {
  }

  lemma SameCostsSameBestCost(t: Table, t': Table, target: NodeId, cost: real)
    requires SameCosts(t, t') && IsBestCost(t, target, cost)
    ensures IsBestCost(t', target, cost)
  {
    var via :| IsBest(t, target, via) && t[RouteKey(target, via)].cost == cost;
    SameCostsSameBest(t, t', target, via);
  }

  // ---------------------------------------------------------------- gossip answers

  ghost predicate DistinctTargets(routes: seq<GossipRoute>)
  {
    forall i, j :: 0 <= i < j < |routes| ==> routes[i].target != routes[j].target
  }

  /** The targets a route list names. */
  function Named(routes: seq<GossipRoute>): set<NodeId>
  {
    set r | r in routes :: r.target
  }

  lemma NamedSnoc(front: seq<GossipRoute>, r: GossipRoute)
    ensures Named(front + [r]) == Named(front) + {r.target}
  {
    var s := front + [r];
    assert forall x :: x in s <==> x in front || x == r;
    forall n | n in Named(front) + {r.target} ensures n in Named(s) {
      if n in Named(front) {
        var x :| x in front && x.target == n;
        assert x in s;
      } else {
        assert r in s;
      }
    }
  }

  /**
   What a gossip message may say about a table when `horizon` routes fit: one
   route per target at the target's cheapest cost, as many as fit, and never a
   dearer route in place of a cheaper one.
   */
  ghost predicate ValidAnswer(t: Table, routes: seq<GossipRoute>, horizon: int)
  {
    && DistinctTargets(routes)
    && |routes| == Min(|Targets(t)|, horizon)
    && (forall i :: 0 <= i < |routes| ==>
                      routes[i].target in Targets(t) && IsBestCost(t, routes[i].target, routes[i].cost))
    && (forall i, target, c :: 0 <= i < |routes| && target !in Named(routes) && IsBestCost(t, target, c)
                               ==> routes[i].cost <= c)
  }

  /** What gossip generation returns: a valid answer, and sorted by cost whenever it had to be cut off. */
  ghost predicate GossipAnswer(t: Table, routes: seq<GossipRoute>, horizon: int)
  {
    && ValidAnswer(t, routes, horizon)
    && (|Targets(t)| > horizon ==> Sorted(Cheaper, routes))
  }

  lemma SameCostsSameTargets(t: Table, t': Table)
    requires SameCosts(t, t')
    ensures Targets(t) == Targets(t')
  {
    forall x ensures x in Targets(t) <==> x in Targets(t') {
      if x in Targets(t) { var k :| k in t && k.target == x; assert k in t'; }
      if x in Targets(t') { var k :| k in t' && k.target == x; assert k in t; }
    }
  }

  lemma SameCostsSameGossip(t: Table, t': Table, routes: seq<GossipRoute>, horizon: int)
    requires SameCosts(t, t') && GossipAnswer(t, routes, horizon)
    ensures GossipAnswer(t', routes, horizon)
  {
    hide ValidAnswer, SameCosts, Sorted;
    SameCostsSameTargets(t, t');
    SameCostsSameAnswer(t, t', routes, horizon);
  }

  lemma SameCostsSameAnswer(t: Table, t': Table, routes: seq<GossipRoute>, horizon: int)
    requires SameCosts(t, t') && ValidAnswer(t, routes, horizon)
    ensures ValidAnswer(t', routes, horizon)
  {
    SameCostsSameTargets(t, t');
    forall i | 0 <= i < |routes| ensures IsBestCost(t', routes[i].target, routes[i].cost) {
      SameCostsSameBestCost(t, t', routes[i].target, routes[i].cost);
    }
    forall i, target, c | 0 <= i < |routes| && target !in Named(routes) && IsBestCost(t', target, c)
      ensures routes[i].cost <= c
    {
      SameCostsSameBestCost(t', t, target, c);
    }
  }

  lemma {:induction false} NamedCount(routes: seq<GossipRoute>)
    requires DistinctTargets(routes)
    ensures |Named(routes)| == |routes|
  {
    if routes == [] {
      assert Named(routes) == {};
    } else {
      var last := |routes| - 1;
      var front := routes[..last];
      assert routes == front + [routes[last]];
      NamedSnoc(front, routes[last]);
      NamedCount(front);
      assert routes[last].target !in Named(front);
    }
  }

  /** With room for every target, the answer names all of them. */
  lemma FullAnswer(t: Table, routes: seq<GossipRoute>, horizon: int)
    requires ValidAnswer(t, routes, horizon) && |Targets(t)| <= horizon
    ensures Named(routes) == Targets(t)
  {
    NamedCount(routes);
    assert Named(routes) <= Targets(t);
    var rest := Targets(t) - Named(routes);
    assert Targets(t) == Named(routes) + rest;
    assert |Targets(t)| == |Named(routes)| + |rest|;
  }

  // ---------------------------------------------------------------- byte budget

  const DEFAULT_GOSSIP_FRAME_BUDGET := 32 * 1024
  const AVG_ROUTE_ON_WIRE := 40
  const GOSSIP_OVERHEAD_ESTIMATE := 128

  /** The largest number of routes whose estimated size fits in the frame, and at least one. */
  function RouteBudget(frameBudgetBytes: int): (n: int)
    ensures n >= 1
    ensures GOSSIP_OVERHEAD_ESTIMATE + AVG_ROUTE_ON_WIRE * (n + 1) > frameBudgetBytes
    ensures n == 1 || GOSSIP_OVERHEAD_ESTIMATE + AVG_ROUTE_ON_WIRE * n <= frameBudgetBytes
  {
    var available := frameBudgetBytes - GOSSIP_OVERHEAD_ESTIMATE;
    if available < AVG_ROUTE_ON_WIRE then 1 else available / AVG_ROUTE_ON_WIRE
  }

  /** Routes take 40 bytes each behind 128 of overhead; the default frame of 32 KiB has room for 816. */
  lemma BudgetIs(bytes: int)
    ensures RouteBudget(bytes) == if bytes < 208 then 1 else (bytes - 128) / 40
    ensures RouteBudget(DEFAULT_GOSSIP_FRAME_BUDGET) == 816
  {
  }

  /** Node identifiers are ordered by their names. */
  lemma BeforeIs(common: string, a: char, b: char, x: string, y: string)
    requires a < b
    ensures Before(NodeId(common + [a] + x), NodeId(common + [b] + y))
    ensures Before(NodeId(common), NodeId(common + [a] + x))
  {
    LessIs(common, a, b, x, y);
  }

  // ---------------------------------------------------------------- path lists

  ghost predicate DistinctHops(paths: seq<PathEntry>)
  {
    forall i, j :: 0 <= i < j < |paths| ==> paths[i].nextHop != paths[j].nextHop
  }

  ghost predicate HasHop(paths: seq<PathEntry>, hop: NodeId)
  {
    exists i :: 0 <= i < |paths| && paths[i].nextHop == hop
  }

  /** `paths` lists exactly the entries of `t` for `target`. */
  ghost predicate Lists(paths: seq<PathEntry>, target: NodeId, t: Table)
  {
    && DistinctHops(paths)
    && (forall i :: 0 <= i < |paths| ==>
                      && RouteKey(target, paths[i].nextHop) in t
                      && t[RouteKey(target, paths[i].nextHop)] == Entry(paths[i].totalCost, paths[i].lastSeen))
    && (forall k :: k in t && k.target == target ==> HasHop(paths, k.via))
  }

  ghost predicate Represents(routes: map<NodeId, seq<PathEntry>>, t: Table)
  {
    && (forall target :: target in routes ==> routes[target] != [] && Lists(routes[target], target, t))
    && (forall k :: k in t ==> k.target in routes)
  }

  lemma RepresentsTargets(routes: map<NodeId, seq<PathEntry>>, t: Table)
    requires Represents(routes, t)
    ensures Targets(t) == routes.Keys
  {
    forall x | x in routes ensures x in Targets(t) {
      assert RouteKey(x, routes[x][0].nextHop) in t;
    }
  }

  /** The list a target has, or the empty list. */
  function PathsOf(routes: map<NodeId, seq<PathEntry>>, target: NodeId): seq<PathEntry>
  {
    if target in routes then routes[target] else []
  }

  lemma RepresentsNonempty(routes: map<NodeId, seq<PathEntry>>, t: Table, target: NodeId)
    requires Represents(routes, t) && target in routes
    ensures routes[target] != []
  {
  }

  ghost predicate SameElsewhere(t: Table, t': Table, target: NodeId)
  {
    forall k: RouteKey :: k.target != target ==> (k in t <==> k in t') && (k in t ==> t[k] == t'[k])
  }

  lemma RepresentsPaths(routes: map<NodeId, seq<PathEntry>>, t: Table, target: NodeId)
    requires Represents(routes, t)
    ensures Lists(PathsOf(routes, target), target, t)
  {
  }

  /** Changing entries of one target leaves the lists of the others as they were. */
  lemma RepresentsUpdate(routes: map<NodeId, seq<PathEntry>>, t: Table, target: NodeId,
                         paths: seq<PathEntry>, t': Table)
    requires Represents(routes, t)
    requires paths != [] && Lists(paths, target, t')
    requires SameElsewhere(t, t', target)
    ensures Represents(routes[target := paths], t')
  {
    var routes' := routes[target := paths];
    forall x | x in routes' ensures routes'[x] != [] && Lists(routes'[x], x, t') {
      if x != target {
        assert Lists(routes[x], x, t);
      }
    }
  }

  lemma RepresentsDelete(routes: map<NodeId, seq<PathEntry>>, t: Table, target: NodeId, t': Table)
    requires Represents(routes, t)
    requires Lists([], target, t')
    requires SameElsewhere(t, t', target)
    ensures Represents(routes - {target}, t')
  {
    var routes' := routes - {target};
    forall x | x in routes' ensures routes'[x] != [] && Lists(routes'[x], x, t') {
      assert Lists(routes[x], x, t);
    }
  }

  /** The cheapest path of a list, the first one among equals. */
  method Cheapest(paths: seq<PathEntry>, target: NodeId, ghost t: Table) returns (best: PathEntry)
    requires paths != [] && Lists(paths, target, t)
    ensures IsBest(t, target, best.nextHop)
    ensures t[RouteKey(target, best.nextHop)].cost == best.totalCost
  {
    best := paths[0];
    for i := 1 to |paths|
      invariant exists j :: 0 <= j < i && paths[j] == best
      invariant forall j :: 0 <= j < i ==> best.totalCost <= paths[j].totalCost
    {
      if paths[i].totalCost < best.totalCost {
        best := paths[i];
      }
    }
    forall k | k in t && k.target == target ensures best.totalCost <= t[k].cost {
      assert HasHop(paths, k.via);
      var i :| 0 <= i < |paths| && paths[i].nextHop == k.via;
      assert k == RouteKey(target, paths[i].nextHop);
    }
  }

  predicate Cheaper(a: GossipRoute, b: GossipRoute)
  {
    a.cost < b.cost
  }

  /** Sorting by cost a list that names each target once. */
  method SortByCost(routes: seq<GossipRoute>) returns (sorted: seq<GossipRoute>)
    requires DistinctTargets(routes)
    ensures DistinctTargets(sorted) && Sorted(Cheaper, sorted) && |sorted| == |routes|
    ensures forall r :: r in sorted <==> r in routes
  {
    sorted := SortBy(Cheaper, routes);
    assert Distinct(routes);
    DistinctRearranged(routes, sorted);
    forall i, j | 0 <= i < j < |sorted| ensures sorted[i].target != sorted[j].target {
      assert sorted[i] in routes && sorted[j] in routes;
    }
  }

  // ---------------------------------------------------------------- filtering path lists

  function Filter(paths: seq<PathEntry>, keep: PathEntry -> bool): seq<PathEntry>
  {
    if paths == [] then []
    else
      var last := paths[|paths| - 1];
      Filter(paths[..|paths| - 1], keep) + if keep(last) then [last] else []
  }

  /** The table entries of the paths that a filter drops. */
  function Dropped(paths: seq<PathEntry>, target: NodeId, keep: PathEntry -> bool): set<RouteKey>
  {
    if paths == [] then {}
    else
      var last := paths[|paths| - 1];
      Dropped(paths[..|paths| - 1], target, keep) + if keep(last) then {} else {RouteKey(target, last.nextHop)}
  }

  lemma {:induction false} FilterIs(paths: seq<PathEntry>, keep: PathEntry -> bool)
    requires DistinctHops(paths)
    ensures DistinctHops(Filter(paths, keep))
    ensures forall p :: p in Filter(paths, keep) <==> p in paths && keep(p)
  {
    if paths != [] {
      var n := |paths| - 1;
      var front := paths[..n];
      assert paths == front + [paths[n]];
      FilterIs(front, keep);
      forall i | 0 <= i < |Filter(front, keep)| ensures Filter(front, keep)[i].nextHop != paths[n].nextHop {
        assert Filter(front, keep)[i] in front;
      }
    }
  }

  /** The dropped entries are those of the paths that the filter does not keep. */
  lemma {:induction false} DroppedIs(paths: seq<PathEntry>, target: NodeId, keep: PathEntry -> bool, k: RouteKey)
    ensures k in Dropped(paths, target, keep) <==>
            exists p :: p in paths && !keep(p) && k == RouteKey(target, p.nextHop)
  {
    if paths != [] {
      var front, last := paths[..|paths| - 1], paths[|paths| - 1];
      assert paths == front + [last];
      DroppedIs(front, target, keep, k);
      if p :| p in front && !keep(p) && k == RouteKey(target, p.nextHop) {
        assert p in paths;
      }
      if k == RouteKey(target, last.nextHop) && !keep(last) {
        assert last in paths;
      }
    }
  }

  lemma {:induction false} FilterSize(paths: seq<PathEntry>, target: NodeId, keep: PathEntry -> bool)
    requires DistinctHops(paths)
    ensures |Filter(paths, keep)| + |Dropped(paths, target, keep)| == |paths|
  {
    if paths != [] {
      var n := |paths| - 1;
      var front := paths[..n];
      FilterSize(front, target, keep);
      var k := RouteKey(target, paths[n].nextHop);
      DroppedIs(front, target, keep, k);
      assert forall p :: p in front ==> p.nextHop != paths[n].nextHop;
    }
  }

  lemma DroppedListed(paths: seq<PathEntry>, target: NodeId, t: Table, keep: PathEntry -> bool, k: RouteKey)
    requires Lists(paths, target, t)
    ensures k in Dropped(paths, target, keep) <==>
            k in t && k.target == target && !keep(PathEntry(k.via, t[k].cost, t[k].seen))
  {
    hide Dropped;
    DroppedIs(paths, target, keep, k);
    if p :| p in paths && !keep(p) && k == RouteKey(target, p.nextHop) {
      var i :| 0 <= i < |paths| && paths[i] == p;
      assert k == RouteKey(target, paths[i].nextHop);
      assert p == PathEntry(k.via, t[k].cost, t[k].seen);
    }
    if k in t && k.target == target {
      assert HasHop(paths, k.via);
      var i :| 0 <= i < |paths| && paths[i].nextHop == k.via;
      assert k == RouteKey(target, paths[i].nextHop);
      assert paths[i] in paths && paths[i] == PathEntry(k.via, t[k].cost, t[k].seen);
    }
  }

  /** Filtering the list of a target drops exactly the entries it fails to keep. */
  lemma ListsFilter(paths: seq<PathEntry>, target: NodeId, t: Table, keep: PathEntry -> bool)
    requires Lists(paths, target, t)
    ensures Dropped(paths, target, keep) <= t.Keys
    ensures Lists(Filter(paths, keep), target, t - Dropped(paths, target, keep))
    ensures forall k :: k in Dropped(paths, target, keep) <==>
                        k in t && k.target == target && !keep(PathEntry(k.via, t[k].cost, t[k].seen))
    ensures |t - Dropped(paths, target, keep)| + |paths| == |t| + |Filter(paths, keep)|
  {
    hide Dropped, Filter;
    FilterIs(paths, keep);
    FilterSize(paths, target, keep);
    var dropped, filtered := Dropped(paths, target, keep), Filter(paths, keep);
    var t' := t - dropped;
    forall k ensures k in dropped <==> k in t && k.target == target && !keep(PathEntry(k.via, t[k].cost, t[k].seen)) {
      DroppedListed(paths, target, t, keep, k);
    }
    forall i | 0 <= i < |filtered|
      ensures RouteKey(target, filtered[i].nextHop) in t'
              && t'[RouteKey(target, filtered[i].nextHop)] == Entry(filtered[i].totalCost, filtered[i].lastSeen)
    {
      var p := filtered[i];
      assert p in paths && keep(p);
      var j :| 0 <= j < |paths| && paths[j] == p;
      assert p == PathEntry(p.nextHop, p.totalCost, p.lastSeen);
    }
    forall k | k in t' && k.target == target ensures HasHop(filtered, k.via) {
      var p := PathEntry(k.via, t[k].cost, t[k].seen);
      assert HasHop(paths, k.via);
      var i :| 0 <= i < |paths| && paths[i].nextHop == k.via;
      assert k == RouteKey(target, paths[i].nextHop) && paths[i] == p;
      assert p in filtered;
    }
    assert t'.Keys == t.Keys - dropped;
    assert |t'| == |t'.Keys| && |t| == |t.Keys| && |t.Keys - dropped| == |t.Keys| - |dropped|;
  }

  lemma ListsRefresh(paths: seq<PathEntry>, target: NodeId, t: Table, i: nat, cost: real, now: int)
    requires Lists(paths, target, t) && i < |paths|
    ensures SameCosts(t, Learn(t, target, paths[i].nextHop, cost, now)) <==> cost == paths[i].totalCost
    ensures SameElsewhere(t, Learn(t, target, paths[i].nextHop, cost, now), target)
    ensures Lists(paths[i := PathEntry(paths[i].nextHop, cost, now)], target,
                  Learn(t, target, paths[i].nextHop, cost, now))
  {
    var hop := paths[i].nextHop;
    var paths' := paths[i := PathEntry(hop, cost, now)];
    forall k | k in Learn(t, target, hop, cost, now) && k.target == target ensures HasHop(paths', k.via) {
      if k.via == hop {
        assert paths'[i].nextHop == hop;
      } else {
        assert HasHop(paths, k.via);
        var j :| 0 <= j < |paths| && paths[j].nextHop == k.via;
        assert paths'[j].nextHop == k.via;
      }
    }
  }

  lemma ListsAppend(paths: seq<PathEntry>, target: NodeId, t: Table, p: PathEntry)
    requires Lists(paths, target, t)
    requires forall j :: 0 <= j < |paths| ==> paths[j].nextHop != p.nextHop
    ensures !SameCosts(t, Learn(t, target, p.nextHop, p.totalCost, p.lastSeen))
    ensures SameElsewhere(t, Learn(t, target, p.nextHop, p.totalCost, p.lastSeen), target)
    ensures Lists(paths + [p], target, Learn(t, target, p.nextHop, p.totalCost, p.lastSeen))
  {
    var paths' := paths + [p];
    assert !HasHop(paths, p.nextHop);
    forall k | k in Learn(t, target, p.nextHop, p.totalCost, p.lastSeen) && k.target == target
      ensures HasHop(paths', k.via)
    {
      if k.via == p.nextHop {
        assert paths'[|paths|].nextHop == p.nextHop;
      } else {
        assert HasHop(paths, k.via);
        var j :| 0 <= j < |paths| && paths[j].nextHop == k.via;
        assert paths'[j].nextHop == k.via;
      }
    }
  }

  // ---------------------------------------------------------------- gossip answers from a full list

  /** Names each of `targets` once, at its cheapest cost. */
  ghost predicate CompleteFor(t: Table, list: seq<GossipRoute>, targets: set<NodeId>)
  {
    && DistinctTargets(list)
    && Named(list) == targets
    && forall i :: 0 <= i < |list| ==> IsBestCost(t, list[i].target, list[i].cost)
  }

  /** Names every target once, at its cheapest cost. */
  ghost predicate Complete(t: Table, list: seq<GossipRoute>)
  {
    CompleteFor(t, list, Targets(t))
  }

  lemma CompleteNone(t: Table)
    ensures CompleteFor(t, [], {})
  {
  }

  lemma CompleteSnoc(t: Table, list: seq<GossipRoute>, done: set<NodeId>, target: NodeId, via: NodeId)
    requires CompleteFor(t, list, done) && target !in done && IsBest(t, target, via)
    ensures CompleteFor(t, list + [GossipRoute(target, t[RouteKey(target, via)].cost)], done + {target})
  {
    var r := GossipRoute(target, t[RouteKey(target, via)].cost);
    NamedSnoc(list, r);
    assert IsBestCost(t, target, r.cost);
    forall i | 0 <= i < |list| ensures list[i].target != target {
      assert list[i] in list;
    }
  }

  lemma BestCostTarget(t: Table, target: NodeId, c: real)
    requires IsBestCost(t, target, c)
    ensures target in Targets(t)
  {
    var via :| IsBest(t, target, via);
    assert RouteKey(target, via) in t;
  }

  lemma WholeValid(t: Table, list: seq<GossipRoute>, horizon: int)
    requires Complete(t, list) && |list| <= horizon
    ensures ValidAnswer(t, list, horizon)
  {
    NamedCount(list);
    forall i | 0 <= i < |list| ensures list[i].target in Targets(t) {
      assert list[i] in list;
    }
    forall target, c | IsBestCost(t, target, c) ensures target in Named(list) {
      BestCostTarget(t, target, c);
    }
  }

  lemma TruncateValid(t: Table, all: seq<GossipRoute>, sorted: seq<GossipRoute>, horizon: int)
    requires Complete(t, all) && 0 <= horizon < |all|
    requires DistinctTargets(sorted) && Sorted(Cheaper, sorted) && |sorted| == |all|
    requires forall r :: r in sorted <==> r in all
    ensures ValidAnswer(t, sorted[..horizon], horizon)
  {
    var kept := sorted[..horizon];
    NamedCount(all);
    forall i | 0 <= i < |sorted|
      ensures sorted[i].target in Targets(t) && IsBestCost(t, sorted[i].target, sorted[i].cost)
    {
      assert sorted[i] in all;
      var j :| 0 <= j < |all| && all[j] == sorted[i];
    }
    forall i, target, c | 0 <= i < horizon && target !in Named(kept) && IsBestCost(t, target, c)
      ensures kept[i].cost <= c
    {
      OmittedDearer(t, all, sorted, horizon, i, target, c);
    }
  }

  lemma OmittedDearer(t: Table, all: seq<GossipRoute>, sorted: seq<GossipRoute>, horizon: int, i: nat, target: NodeId, c: real)
    requires Complete(t, all) && 0 <= i < horizon < |sorted| && Sorted(Cheaper, sorted)
    requires forall r :: r in sorted <==> r in all
    requires target !in Named(sorted[..horizon]) && IsBestCost(t, target, c)
    ensures sorted[i].cost <= c
  {
    hide Distinct, DistinctTargets, IsBestCost;
    BestCostTarget(t, target, c);
    var r :| r in all && r.target == target;
    var j :| 0 <= j < |sorted| && sorted[j] == r;
    BestCostUnique(t, target, c, r.cost);
    OutsideKept(sorted, horizon, j);
    assert !Cheaper(sorted[j], sorted[i]);
  }

  lemma OutsideKept(sorted: seq<GossipRoute>, n: nat, j: nat)
    requires n <= |sorted| && j < |sorted| && sorted[j].target !in Named(sorted[..n])
    ensures n <= j
  {
    if j < n {
      InKept(sorted, n, j);
    }
  }

  lemma InKept(sorted: seq<GossipRoute>, n: nat, j: nat)
    requires j < n <= |sorted|
    ensures sorted[j].target in Named(sorted[..n])
  {
    assert sorted[..n][j] == sorted[j];
  }

  lemma CutSorted(t: Table, all: seq<GossipRoute>, sorted: seq<GossipRoute>, horizon: int)
    requires Complete(t, all) && 0 <= horizon < |all|
    requires DistinctTargets(sorted) && Sorted(Cheaper, sorted) && |sorted| == |all|
    requires forall r :: r in sorted <==> r in all
    ensures GossipAnswer(t, sorted[..horizon], horizon)
  {
    TruncateValid(t, all, sorted, horizon);
  }

  lemma WholeAnswer(t: Table, list: seq<GossipRoute>, horizon: int)
    requires Complete(t, list) && |list| <= horizon
    ensures GossipAnswer(t, list, horizon)
  {
    WholeValid(t, list, horizon);
    NamedCount(list);
  }
}
