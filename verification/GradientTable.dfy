/** The routing table of one node, with its cached gossip payload. */
module GradientTables {
  // The class invariant ties the path lists to the table they mean, and a clean
  // cache to a valid answer.

  import opened Wrappers
  import opened Ordering
  import opened Routes
  import opened Horizon

  datatype GossipVector = GossipVector(
    from: NodeId,
    impedance: real,
    routes: seq<GossipRoute>,
    fromCapabilities: CapList,
    nodeCapabilities: Option<Capabilities>)

  datatype GossipInput = GossipInput(local: CapList, known: Capabilities)

  /** What ingesting a route list from a neighbour does to a table. */
  function Absorb(t: Table, self: NodeId, from: NodeId, impedance: real, routes: seq<GossipRoute>, now: int): Table
  {
    if routes == [] then t
    else
      var t' := Absorb(t, self, from, impedance, routes[..|routes| - 1], now);
      var r := routes[|routes| - 1];
      if r.target == self then t' else Learn(t', r.target, from, r.cost + impedance, now)
  }

  /**
   Absorbing a list that names each target once sets exactly the entries through
   the sender for the named targets, at the advertised cost plus the sender's
   impedance, and never a route to the node itself.
   */
  lemma {:induction false} AbsorbIs(t: Table, self: NodeId, from: NodeId, impedance: real,
                                    routes: seq<GossipRoute>, now: int, k: RouteKey)
    requires DistinctTargets(routes)
    ensures var t' := Absorb(t, self, from, impedance, routes, now);
            if k.via == from && k.target != self && k.target in Named(routes)
            then exists r :: r in routes && r.target == k.target
                             && k in t' && t'[k] == Entry(r.cost + impedance, now)
            else (k in t' <==> k in t) && (k in t ==> t'[k] == t[k])
  {
    if routes != [] {
      var last := |routes| - 1;
      var front := routes[..last];
      assert routes == front + [routes[last]];
      NamedSnoc(front, routes[last]);
      NamedOnce(routes);
      AbsorbIs(t, self, from, impedance, front, now, k);
      hide Named, DistinctTargets, Absorb;
      AbsorbSnoc(t, self, from, impedance, routes, now);
      assert forall r :: r in routes <==> r in front || r == routes[last];
    }
  }

  lemma AbsorbSnoc(t: Table, self: NodeId, from: NodeId, impedance: real, routes: seq<GossipRoute>, now: int)
    requires routes != []
    ensures var t', r := Absorb(t, self, from, impedance, routes[..|routes| - 1], now), routes[|routes| - 1];
            Absorb(t, self, from, impedance, routes, now) ==
            if r.target == self then t' else Learn(t', r.target, from, r.cost + impedance, now)
  {
  }

  lemma NamedOnce(routes: seq<GossipRoute>)
    requires DistinctTargets(routes) && routes != []
    ensures DistinctTargets(routes[..|routes| - 1])
    ensures routes[|routes| - 1].target !in Named(routes[..|routes| - 1])
  {
  }

  class GradientTable {
    const selfID: NodeId
    /** Known paths per target; ties and order are those of the lists. */
    var routes: map<NodeId, seq<PathEntry>>
    var gossipCache: Option<seq<GossipRoute>>
    var gossipImpedance: real
    var gossipBudget: int
    var gossipGen: nat
    var dirty: bool
    /** What `routes` means. */
    ghost var table: Table

    /** The lists mean the table, and a clean cache is a valid answer for its budget. */
    ghost predicate Valid()
      reads this
    {
      && Represents(routes, table)
      && CacheCoherent()
    }

    ghost predicate CacheCoherent()
      reads this
    {
      gossipCache.Some? && !dirty ==> GossipAnswer(table, gossipCache.value, RouteBudget(gossipBudget))
    }

    constructor (selfID: NodeId)
      ensures Valid() && this.selfID == selfID
      ensures table == map[] && gossipCache == None && !dirty && gossipGen == 0
    {
      this.selfID := selfID;
      routes, table := map[], map[];
      gossipCache, gossipImpedance, gossipBudget, gossipGen, dirty := None, 0.0, 0, 0, false;
    }

    /**
     Sets the entry for (target, next hop). The cache is invalidated exactly when
     the entry is new or its cost changes; the refresh time always moves.
     */
    method UpdateRoute(target: NodeId, nextHop: NodeId, totalCost: real, now: int)
      requires Valid()
      modifies this`routes, this`dirty, this`table
      ensures Valid()
      ensures table == Learn(old(table), target, nextHop, totalCost, now)
      ensures table == old(table)[RouteKey(target, nextHop) := Entry(totalCost, now)]
      ensures dirty <==> old(dirty) || !SameCosts(old(table), table)
    {
      hide Represents, Lists, GossipAnswer, SameCosts;
      var paths := PathsOf(routes, target);
      ghost var t' := Learn(table, target, nextHop, totalCost, now);
      RepresentsPaths(routes, table, target);
      for i := 0 to |paths|
        invariant forall j :: 0 <= j < i ==> paths[j].nextHop != nextHop
      {
        var p := paths[i];
        if p.nextHop == nextHop {
          ListsRefresh(paths, target, table, i, totalCost, now);
          if p.totalCost == totalCost && !dirty && gossipCache.Some? {
            SameCostsSameGossip(table, t', gossipCache.value, RouteBudget(gossipBudget));
          }
          StorePaths(target, paths[i := PathEntry(nextHop, totalCost, now)], t');
          if p.totalCost != totalCost {
            dirty := true;
          }
          return;
        }
      }
      ListsAppend(paths, target, table, PathEntry(nextHop, totalCost, now));
      StorePaths(target, paths + [PathEntry(nextHop, totalCost, now)], t');
      dirty := true;
    }

    /** Stores the list of one target; `t'` is what the lists mean afterwards. */
    method StorePaths(target: NodeId, paths: seq<PathEntry>, ghost t': Table)
      requires Represents(routes, table) && paths != [] && Lists(paths, target, t')
      requires SameElsewhere(table, t', target)
      modifies this`routes, this`table
      ensures Represents(routes, table) && table == t'
      ensures routes == old(routes)[target := paths]
    {
      hide Represents, Lists;
      RepresentsUpdate(routes, table, target, paths, t');
      routes := routes[target := paths];
      table := t';
    }

    /** A cheapest path to the target, if any path is known. */
    method BestRoute(target: NodeId) returns (r: Option<PathCost>)
      requires Valid()
      ensures r.None? <==> target !in Targets(table)
      ensures r.Some? ==> IsBest(table, target, r.value.nextHop)
                          && table[RouteKey(target, r.value.nextHop)].cost == r.value.totalCost
    {
      RepresentsTargets(routes, table);
      if target !in routes || |routes[target]| == 0 {
        return None;
      }
      var best := Cheapest(routes[target], target, table);
      return Some(PathCost(best.nextHop, best.totalCost));
    }

    /** Ingests a neighbour's route list. */
    method ProcessGossip(gossip: GossipVector, now: int)
      requires Valid()
      modifies this`routes, this`dirty, this`table
      ensures Valid()
      ensures table == Absorb(old(table), selfID, gossip.from, gossip.impedance, gossip.routes, now)
    {
      hide Represents, GossipAnswer, SameCosts;
      for i := 0 to |gossip.routes|
        invariant Valid()
        invariant table == Absorb(old(table), selfID, gossip.from, gossip.impedance, gossip.routes[..i], now)
      {
        var route := gossip.routes[i];
        assert gossip.routes[..i + 1][..i] == gossip.routes[..i];
        if route.target == selfID {
          continue;
        }
        UpdateRoute(route.target, gossip.from, route.cost + gossip.impedance, now);
      }
      assert gossip.routes[..|gossip.routes|] == gossip.routes;
    }

    /** Registers a directly connected peer. */
    method AddDirectNeighbor(neighbor: NodeId, impedance: real, now: int)
      requires Valid()
      modifies this`routes, this`dirty, this`table
      ensures Valid()
      ensures table == Learn(old(table), neighbor, neighbor, impedance, now)
      ensures table == old(table)[RouteKey(neighbor, neighbor) := Entry(impedance, now)]
    {
      UpdateRoute(neighbor, neighbor, impedance, now);
    }

    /**
     The gossip vector for the current table. Whether or not the cached routes
     are used, the routes are a valid answer for the table as it is now, and sorted
     by cost if there are more targets than fit.
     */
    method GenerateGossipBudgeted(localImpedance: real, input: GossipInput, frameBudgetBytes: int)
      returns (g: GossipVector)
      requires Valid()
      modifies this`gossipCache, this`gossipImpedance, this`gossipBudget, this`gossipGen, this`dirty
      ensures Valid() && !dirty
      ensures g.from == selfID && g.impedance == localImpedance && g.fromCapabilities == input.local
      ensures GossipAnswer(table, g.routes, RouteBudget(frameBudgetBytes))
      ensures IsHorizon(input.known, selfID, g.routes, RouteBudget(frameBudgetBytes), g.nodeCapabilities)
      ensures gossipCache == Some(g.routes) && gossipImpedance == localImpedance && gossipBudget == frameBudgetBytes
      ensures gossipGen == old(gossipGen) +
                           if !old(dirty) && old(gossipCache).Some? && old(gossipImpedance) == localImpedance
                              && old(gossipBudget) == frameBudgetBytes then 0 else 1
      ensures gossipGen == old(gossipGen) ==> gossipCache == old(gossipCache)
    {
      hide Represents, GossipAnswer, IsHorizon, Sorted, DistinctTargets, RouteBudget, Named, IsBestCost;
      var horizon := RouteBudget(frameBudgetBytes);
      if !dirty && gossipCache.Some? && gossipImpedance == localImpedance && gossipBudget == frameBudgetBytes {
        var hit := CapHorizonRanked(input.known, selfID, gossipCache.value, horizon);
        return GossipVector(selfID, localImpedance, gossipCache.value, input.local, hit);
      }
      var list := BestOfEach();
      ghost var all := list;
      if |list| > horizon {
        list := SortByCost(list);
        CutSorted(table, all, list, horizon);
        list := list[..horizon];
      } else {
        WholeAnswer(table, all, horizon);
      }
      gossipCache := Some(list);
      gossipImpedance := localImpedance;
      gossipBudget := frameBudgetBytes;
      dirty := false;
      gossipGen := gossipGen + 1;
      var caps := CapHorizonRanked(input.known, selfID, list, horizon);
      return GossipVector(selfID, localImpedance, list, input.local, caps);
    }

    /** One route per target at its cheapest cost, in whatever order the map yields them. */
    method BestOfEach() returns (list: seq<GossipRoute>)
      requires Valid()
      ensures Complete(table, list)
    {
      hide Represents, GossipAnswer, Lists, IsBestCost, IsBest, Targets, DistinctTargets, Named;
      RepresentsTargets(routes, table);
      list := [];
      CompleteNone(table);
      var todo := routes.Keys;
      while todo != {}
        invariant todo <= routes.Keys
        invariant CompleteFor(table, list, routes.Keys - todo)
      {
        var target :| target in todo;
        if |routes[target]| > 0 {
          RepresentsPaths(routes, table, target);
          var best := Cheapest(routes[target], target, table);
          CompleteSnoc(table, list, routes.Keys - todo, target, best.nextHop);
          list := list + [GossipRoute(target, best.totalCost)];
        } else {
          RepresentsNonempty(routes, table, target);
        }
        assert routes.Keys - (todo - {target}) == (routes.Keys - todo) + {target};
        todo := todo - {target};
      }
      assert routes.Keys - {} == routes.Keys;
    }

    /** Drops every path through the given neighbour. */
    method RemoveNeighbor(neighbor: NodeId)
      requires Valid()
      modifies this`routes, this`dirty, this`table
      ensures Valid()
      ensures table == Without(old(table), neighbor)
      ensures forall k :: k in table <==> k in old(table) && k.via != neighbor
      ensures forall k :: k in table ==> table[k] == old(table)[k]
      ensures dirty <==> old(dirty) || table != old(table)
    {
      hide Represents, Lists, GossipAnswer, Partly;
      ghost var t0 := table;
      ghost var dropped := 0;
      var mutated := false;
      var keep := (p: PathEntry) => p.nextHop != neighbor;
      var todo := routes.Keys;
      PartlyAll(t0, keep, routes);
      while todo != {}
        invariant todo <= routes.Keys && dirty == old(dirty)
        invariant Represents(routes, table)
        invariant table == Partly(t0, keep, todo)
        invariant |t0| == |table| + dropped && dropped >= 0 && (mutated <==> dropped > 0)
      {
        var target :| target in todo;
        var paths := routes[target];
        var filtered := [];
        for i := 0 to |paths|
          invariant filtered == Filter(paths[..i], keep)
        {
          assert paths[..i + 1][..i] == paths[..i];
          if paths[i].nextHop != neighbor {
            filtered := filtered + [paths[i]];
          }
        }
        assert paths[..|paths|] == paths;
        if |filtered| != |paths| {
          mutated := true;
        }
        StoreFiltered(target, filtered, t0, keep, todo);
        dropped := dropped + |paths| - |filtered|;
        todo := todo - {target};
      }
      PartlyNone(t0, keep);
      SameSizeSameTable(table, t0);
      assert table == Without(t0, neighbor) by { WithoutIs(t0, neighbor, keep); }
      if mutated {
        dirty := true;
      }
    }

    /** Puts a filtered list back, or deletes the target when nothing is left of it. */
    method StoreFiltered(target: NodeId, filtered: seq<PathEntry>, ghost t0: Table, ghost keep: PathEntry -> bool,
                         ghost todo: set<NodeId>)
      requires Represents(routes, table) && target in routes && target in todo
      requires filtered == Filter(routes[target], keep)
      requires table == Partly(t0, keep, todo)
      modifies this`routes, this`table
      ensures Represents(routes, table)
      ensures routes == if filtered == [] then old(routes) - {target} else old(routes)[target := filtered]
      ensures table == Partly(t0, keep, todo - {target})
      ensures |table| + |old(routes)[target]| == |old(table)| + |filtered| && |filtered| <= |old(routes)[target]|
    {
      hide Represents, Lists, Partly, SameElsewhere;
      RepresentsPaths(routes, table, target);
      ghost var t' := table - Dropped(routes[target], target, keep);
      ListsFilter(routes[target], target, table, keep);
      PartlyStep(t0, keep, todo, target, t');
      if |filtered| == 0 {
        RepresentsDelete(routes, table, target, t');
        routes := routes - {target};
      } else {
        RepresentsUpdate(routes, table, target, filtered, t');
        routes := routes[target := filtered];
      }
      table := t';
    }

    /** Drops every path not refreshed within `maxAge`, and counts the paths dropped. */
    method PurgeStale(maxAge: int, now: int) returns (purged: nat)
      requires Valid()
      modifies this`routes, this`dirty, this`table
      ensures Valid()
      ensures table == Fresh(old(table), now - maxAge)
      ensures forall k :: k in table <==> k in old(table) && now - old(table)[k].seen < maxAge
      ensures forall k :: k in table ==> table[k] == old(table)[k]
      ensures |old(table)| == |table| + purged
      ensures dirty <==> old(dirty) || table != old(table)
    {
      hide Represents, Lists, GossipAnswer, Partly;
      ghost var t0 := table;
      var cutoff := now - maxAge;
      var keep := (p: PathEntry) => p.lastSeen > cutoff;
      purged := 0;
      var todo := routes.Keys;
      PartlyAll(t0, keep, routes);
      while todo != {}
        invariant todo <= routes.Keys && dirty == old(dirty)
        invariant Represents(routes, table)
        invariant table == Partly(t0, keep, todo)
        invariant |t0| == |table| + purged
      {
        var target :| target in todo;
        var paths := routes[target];
        var filtered := [];
        ghost var before := purged;
        for i := 0 to |paths|
          invariant filtered == Filter(paths[..i], keep)
          invariant purged == before + i - |filtered|
        {
          assert paths[..i + 1][..i] == paths[..i];
          if paths[i].lastSeen > cutoff {
            filtered := filtered + [paths[i]];
          } else {
            purged := purged + 1;
          }
        }
        assert paths[..|paths|] == paths;
        StoreFiltered(target, filtered, t0, keep, todo);
        todo := todo - {target};
      }
      PartlyNone(t0, keep);
      SameSizeSameTable(table, t0);
      assert table == Fresh(t0, cutoff) by { FreshIs(t0, cutoff, keep); }
      if purged > 0 {
        dirty := true;
      }
    }
  }

  /** The entries of `t` that are kept, or whose target has not been looked at yet. */
  ghost function Partly(t: Table, keep: PathEntry -> bool, todo: set<NodeId>): Table
  {
    map k | k in t && (k.target in todo || keep(PathEntry(k.via, t[k].cost, t[k].seen))) :: t[k]
  }

  lemma PartlyAll(t: Table, keep: PathEntry -> bool, routes: map<NodeId, seq<PathEntry>>)
    requires Represents(routes, t)
    ensures Partly(t, keep, routes.Keys) == t
  {
  }

  lemma PartlyNone(t: Table, keep: PathEntry -> bool)
    ensures Partly(t, keep, {}).Keys <= t.Keys
    ensures forall k :: k in Partly(t, keep, {}) ==> Partly(t, keep, {})[k] == t[k]
  {
  }

  lemma PartlyStep(t: Table, keep: PathEntry -> bool, todo: set<NodeId>, target: NodeId, t': Table)
    requires target in todo
    requires var now := Partly(t, keep, todo);
             && t'.Keys <= now.Keys
             && (forall k :: k in t' ==> t'[k] == now[k])
             && (forall k :: k in now ==>
                   (k in t' <==> !(k.target == target && !keep(PathEntry(k.via, now[k].cost, now[k].seen)))))
    ensures t' == Partly(t, keep, todo - {target})
    ensures SameElsewhere(Partly(t, keep, todo), t', target)
  {
  }

  lemma WithoutIs(t: Table, neighbor: NodeId, keep: PathEntry -> bool)
    requires forall p :: keep(p) <==> p.nextHop != neighbor
    ensures Partly(t, keep, {}) == Without(t, neighbor)
  {
  }

  lemma FreshIs(t: Table, cutoff: int, keep: PathEntry -> bool)
    requires forall p :: keep(p) <==> p.lastSeen > cutoff
    ensures Partly(t, keep, {}) == Fresh(t, cutoff)
  {
  }

  lemma SameSizeSameTable(t: Table, t': Table)
    requires t.Keys <= t'.Keys && forall k :: k in t ==> t[k] == t'[k]
    ensures |t| == |t'| <==> t == t'
  {
    assert |t.Keys| == |t| && |t'.Keys| == |t'|;
    assert t'.Keys == t.Keys + (t'.Keys - t.Keys);
    assert |t'.Keys| == |t.Keys| + |t'.Keys - t.Keys|;
  }
}
