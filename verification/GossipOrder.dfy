/** When a gossip answer is sorted by cost. */
module GossipOrder {
  import opened Ordering
  import opened Routes

  ghost predicate SameBestCosts(t: Table)
  {
    forall x, y :: x in Targets(t) && y in Targets(t) ==> BestCost(t, x) == BestCost(t, y)
  }

  /** Some listing of the given targets at their least costs. */
  lemma {:induction false} ListTargets(t: Table, targets: set<NodeId>) returns (list: seq<GossipRoute>)
    requires targets <= Targets(t)
    ensures DistinctTargets(list) && Named(list) == targets
    ensures forall i :: 0 <= i < |list| ==> list[i].target in Targets(t) && list[i].cost == BestCost(t, list[i].target)
    decreases |targets|
  {
    hide BestCost, Targets, Named;
    if targets == {} {
      list := [];
      NamedNone();
    } else {
      var x :| x in targets;
      var front := ListTargets(t, targets - {x});
      list := front + [GossipRoute(x, BestCost(t, x))];
      NamedSnoc(front, GossipRoute(x, BestCost(t, x)));
      forall i | 0 <= i < |front| ensures front[i].target != x {
        NamedAt(front, i);
      }
    }
  }

  lemma NamedNone()
    ensures Named([]) == {}
  {
  }

  lemma NamedAt(routes: seq<GossipRoute>, i: nat)
    requires i < |routes|
    ensures routes[i].target in Named(routes)
  {
    assert routes[i] in routes;
  }

  /** Two targets of different cost can be reported in the wrong order when nothing is cut off. */
  lemma UnsortedAnswer(t: Table, x: NodeId, y: NodeId, horizon: int) returns (routes: seq<GossipRoute>)
    requires |Targets(t)| <= horizon && x in Targets(t) && y in Targets(t) && BestCost(t, x) < BestCost(t, y)
    ensures GossipAnswer(t, routes, horizon) && !Sorted(Cheaper, routes)
  {
    hide BestCost, Targets, Named;
    var front := ListTargets(t, Targets(t) - {x, y});
    var a, b := GossipRoute(y, BestCost(t, y)), GossipRoute(x, BestCost(t, x));
    routes := front + [a] + [b];
    NamedSnoc(front, a);
    NamedSnoc(front + [a], b);
    forall i | 0 <= i < |front| ensures front[i].target != x && front[i].target != y {
      NamedAt(front, i);
    }
    assert Named(routes) == Targets(t);
    ListedAll(t, routes, horizon);
    assert Cheaper(routes[|front| + 1], routes[|front|]);
  }

  lemma ListedAll(t: Table, routes: seq<GossipRoute>, horizon: int)
    requires DistinctTargets(routes) && Named(routes) == Targets(t) && |Targets(t)| <= horizon
    requires forall i :: 0 <= i < |routes| ==> routes[i].target in Targets(t) && routes[i].cost == BestCost(t, routes[i].target)
    ensures GossipAnswer(t, routes, horizon)
  {
    NamedCount(routes);
    forall target, c | IsBestCost(t, target, c) ensures target in Targets(t) {
      BestCostTarget(t, target, c);
    }
  }

  /**
   Every answer is sorted by cost exactly when there are more targets than fit, or all
   targets cost the same. The order of the others is the one in which the map of routes
   is walked.
   */
  lemma AnswersSortedExactly(t: Table, horizon: int)
    ensures (forall routes :: GossipAnswer(t, routes, horizon) ==> Sorted(Cheaper, routes)) <==>
            |Targets(t)| > horizon || SameBestCosts(t)
  {
    hide ValidAnswer, BestCost, Targets, Sorted;
    if |Targets(t)| <= horizon {
      if SameBestCosts(t) {
        forall routes | GossipAnswer(t, routes, horizon) ensures Sorted(Cheaper, routes) {
          SameCostsSorted(t, routes, horizon);
        }
      } else {
        var x, y :| x in Targets(t) && y in Targets(t) && BestCost(t, x) != BestCost(t, y);
        var routes: seq<GossipRoute>;
        if BestCost(t, x) < BestCost(t, y) {
          routes := UnsortedAnswer(t, x, y, horizon);
        } else {
          routes := UnsortedAnswer(t, y, x, horizon);
        }
      }
    }
  }

  lemma SameCostsSorted(t: Table, routes: seq<GossipRoute>, horizon: int)
    requires ValidAnswer(t, routes, horizon) && SameBestCosts(t)
    ensures Sorted(Cheaper, routes)
  {
    hide Targets, BestCost;
    forall i, j | 0 <= i < j < |routes| ensures !Cheaper(routes[j], routes[i]) {
      BestCostUnique(t, routes[i].target, routes[i].cost, BestCost(t, routes[i].target));
      BestCostUnique(t, routes[j].target, routes[j].cost, BestCost(t, routes[j].target));
    }
  }

  /** Two direct routes, reported dearest first although the default budget has room for both. */
  lemma UnsortedExample()
    ensures var a, b := NodeId("a"), NodeId("b");
            var t := map[RouteKey(a, a) := Entry(1.0, 0), RouteKey(b, b) := Entry(5.0, 0)];
            var routes := [GossipRoute(b, 5.0), GossipRoute(a, 1.0)];
            && GossipAnswer(t, routes, RouteBudget(DEFAULT_GOSSIP_FRAME_BUDGET))
            && !Sorted(Cheaper, routes)
  {
    var a, b := NodeId("a"), NodeId("b");
    var ka, kb := RouteKey(a, a), RouteKey(b, b);
    var t := map[ka := Entry(1.0, 0), kb := Entry(5.0, 0)];
    var routes := [GossipRoute(b, 5.0), GossipRoute(a, 1.0)];
    assert a.name[0] != b.name[0];
    TwoDirect(t, a, b);
    NamedSnoc([], routes[0]);
    NamedSnoc([routes[0]], routes[1]);
    assert [] + [routes[0]] == [routes[0]] && [routes[0]] + [routes[1]] == routes;
    NamedNone();
    ListedAll(t, routes, RouteBudget(DEFAULT_GOSSIP_FRAME_BUDGET));
    assert Cheaper(routes[1], routes[0]);
  }

  lemma TwoDirect(t: Table, a: NodeId, b: NodeId)
    requires a != b && t.Keys == {RouteKey(a, a), RouteKey(b, b)}
    ensures Targets(t) == {a, b}
    ensures BestCost(t, a) == t[RouteKey(a, a)].cost && BestCost(t, b) == t[RouteKey(b, b)].cost
  {
    assert RouteKey(a, a) in t && RouteKey(b, b) in t;
    assert forall k :: k in t <==> k == RouteKey(a, a) || k == RouteKey(b, b);
    assert Targets(t) == {a, b};
    assert IsBest(t, a, a) && IsBest(t, b, b);
    BestCostUnique(t, a, t[RouteKey(a, a)].cost, BestCost(t, a));
    BestCostUnique(t, b, t[RouteKey(b, b)].cost, BestCost(t, b));
  }
}
