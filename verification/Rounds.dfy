/** Synchronous gossip on a fixed mesh computes shortest paths. */
module Rounds {
  // Links and impedances are fixed, nothing is purged and there is room for every
  // route. In a round every node sends one gossip message, computed from its table
  // at the start of the round, and every node absorbs the messages of its
  // neighbours in some order. Round k knows exactly the shortest walks of at most
  // k + 1 links.

  import opened Ordering
  import opened Routes
  import opened Walks
  import opened GradientTables

  datatype Net = Net(nodes: set<NodeId>, links: Links, imp: NodeId -> real)

  type Tables = map<NodeId, Table>

  ghost predicate NetOk(net: Net)
  {
    && Clamped(net.imp)
    && forall u, v :: (u, v) in net.links ==> u in net.nodes && v in net.nodes && u != v && (v, u) in net.links
  }

  /** Every node has registered its neighbours and nothing else has happened. */
  ghost predicate Started(net: Net, s: Tables)
  {
    && s.Keys == net.nodes
    && forall u, k :: u in net.nodes ==>
         (k in s[u] <==> k.target == k.via && (u, k.via) in net.links) && (k in s[u] ==> s[u][k].cost == 1.0)
  }

  /** `order` lists the neighbours of `u`, each once. */
  ghost predicate IsOrder(net: Net, u: NodeId, order: seq<NodeId>)
  {
    && Distinct(order)
    && forall h :: h in order <==> (u, h) in net.links
  }

  /** Absorbing one message from each node of `order`. */
  function AbsorbAll(net: Net, t: Table, u: NodeId, order: seq<NodeId>, sent: map<NodeId, seq<GossipRoute>>, now: int): Table
    requires forall h :: h in order ==> h in sent
  {
    if order == [] then t
    else
      var h := order[|order| - 1];
      Absorb(AbsorbAll(net, t, u, order[..|order| - 1], sent, now), u, h, net.imp(h), sent[h], now)
  }

  /** What the nodes send: complete answers for the tables at the start of the round. */
  ghost predicate IsSent(net: Net, s: Tables, sent: map<NodeId, seq<GossipRoute>>)
    requires s.Keys == net.nodes
  {
    && sent.Keys == net.nodes
    && forall h :: h in net.nodes ==> exists horizon :: |Targets(s[h])| <= horizon && ValidAnswer(s[h], sent[h], horizon)
  }

  ghost predicate Round(net: Net, s: Tables, s': Tables)
  {
    && s.Keys == net.nodes && s'.Keys == net.nodes
    && exists sent, now :: IsRoundOf(net, s, s', sent, now)
  }

  ghost predicate IsRoundOf(net: Net, s: Tables, s': Tables, sent: map<NodeId, seq<GossipRoute>>, now: int)
    requires s.Keys == net.nodes && s'.Keys == net.nodes
  {
    && IsSent(net, s, sent)
    && forall u :: u in net.nodes ==> Received(net, s[u], s'[u], u, sent, now)
  }

  ghost predicate Received(net: Net, t: Table, t': Table, u: NodeId, sent: map<NodeId, seq<GossipRoute>>, now: int)
  {
    exists order :: IsOrder(net, u, order) && (forall h :: h in order ==> h in sent)
                    && t' == AbsorbAll(net, t, u, order, sent, now)
  }

  /** States at the end of rounds 0, 1, ... */
  ghost predicate IsRun(net: Net, run: seq<Tables>)
  {
    && run != [] && Started(net, run[0])
    && forall i, j :: 0 <= i && j == i + 1 && j < |run| ==> Round(net, run[i], run[j])
  }

  // ---------------------------------------------------------------- one round, entry by entry

  /**
   After a round, the entry for (target, neighbour) is the neighbour's cheapest
   cost at the start of the round plus its impedance, if the neighbour had a
   route; any other entry is as it was.
   */
  ghost predicate RoundEntry(net: Net, s: Tables, s': Tables, u: NodeId, k: RouteKey)
    requires s.Keys == net.nodes && s'.Keys == net.nodes && u in net.nodes && NetOk(net)
  {
    if (u, k.via) in net.links && k.target != u && k.target in Targets(s[k.via])
    then k in s'[u] && s'[u][k].cost == BestCost(s[k.via], k.target) + net.imp(k.via)
    else (k in s'[u] <==> k in s[u]) && (k in s[u] ==> s'[u][k] == s[u][k])
  }

  lemma {:induction false} AbsorbAllIs(net: Net, t: Table, u: NodeId, order: seq<NodeId>,
                                       sent: map<NodeId, seq<GossipRoute>>, now: int, k: RouteKey)
    requires Distinct(order)
    requires forall h :: h in order ==> h in sent && DistinctTargets(sent[h])
    ensures var t' := AbsorbAll(net, t, u, order, sent, now);
            if k.via in order && k.target != u && k.target in Named(sent[k.via])
            then exists r :: r in sent[k.via] && r.target == k.target
                             && k in t' && t'[k] == Entry(r.cost + net.imp(k.via), now)
            else (k in t' <==> k in t) && (k in t ==> t'[k] == t[k])
  {
    if order != [] {
      var last := |order| - 1;
      var h := order[last];
      var front := order[..last];
      assert order == front + [h];
      AbsorbAllIs(net, t, u, front, sent, now, k);
      AbsorbIs(AbsorbAll(net, t, u, front, sent, now), u, h, net.imp(h), sent[h], now, k);
      assert h !in front;
    }
  }

  lemma RoundIs(net: Net, s: Tables, s': Tables, u: NodeId, k: RouteKey)
    requires NetOk(net) && Round(net, s, s') && u in net.nodes
    ensures RoundEntry(net, s, s', u, k)
  {
    hide IsRoundOf, RoundEntry, NetOk;
    var sent, now :| IsRoundOf(net, s, s', sent, now);
    RoundOfIs(net, s, s', sent, now, u, k);
  }

  /** The entries that a round sets also get its time. */
  lemma RoundOfIs(net: Net, s: Tables, s': Tables, sent: map<NodeId, seq<GossipRoute>>, now: int, u: NodeId, k: RouteKey)
    requires s.Keys == net.nodes && s'.Keys == net.nodes
    requires NetOk(net) && IsRoundOf(net, s, s', sent, now) && u in net.nodes
    ensures RoundEntry(net, s, s', u, k)
    ensures (u, k.via) in net.links && k.target != u && k.target in Targets(s[k.via]) ==> s'[u][k].seen == now
  {
    hide IsSent, ValidAnswer, DistinctTargets, Named, Targets, Distinct, Absorb, AbsorbAll, BestCost, NetOk;
    forall h ensures (u, h) in net.links ==> h in net.nodes { LinkNodes(net, u, h); }
    assert Received(net, s[u], s'[u], u, sent, now);
    var order :| IsOrder(net, u, order) && (forall h :: h in order ==> h in sent)
                 && s'[u] == AbsorbAll(net, s[u], u, order, sent, now);
    forall h | h in order ensures h in net.nodes && DistinctTargets(sent[h]) && Named(sent[h]) == Targets(s[h]) {
      SentIs(net, s, sent, h);
    }
    AbsorbAllIs(net, s[u], u, order, sent, now, k);
    if k.via in order && k.target != u && k.target in Named(sent[k.via]) {
      var r: GossipRoute :| r in sent[k.via] && r.target == k.target && k in s'[u]
                            && s'[u][k] == Entry(r.cost + net.imp(k.via), now);
      SentCost(net, s, sent, k.via, r);
    }
  }

  lemma SentIs(net: Net, s: Tables, sent: map<NodeId, seq<GossipRoute>>, h: NodeId)
    requires s.Keys == net.nodes && IsSent(net, s, sent) && h in net.nodes
    ensures DistinctTargets(sent[h]) && Named(sent[h]) == Targets(s[h])
  {
    var horizon :| |Targets(s[h])| <= horizon && ValidAnswer(s[h], sent[h], horizon);
    FullAnswer(s[h], sent[h], horizon);
  }

  lemma SentCost(net: Net, s: Tables, sent: map<NodeId, seq<GossipRoute>>, h: NodeId, r: GossipRoute)
    requires s.Keys == net.nodes && IsSent(net, s, sent) && h in net.nodes && r in sent[h]
    ensures r.target in Targets(s[h]) && r.cost == BestCost(s[h], r.target)
  {
    var horizon :| |Targets(s[h])| <= horizon && ValidAnswer(s[h], sent[h], horizon);
    var i :| 0 <= i < |sent[h]| && sent[h][i] == r;
    BestCostUnique(s[h], r.target, r.cost, BestCost(s[h], r.target));
  }

  // ---------------------------------------------------------------- rounds against walks

  /** A walk from `u` to `t` of at most `n` links; it costs what its part after `u` weighs. */
  ghost predicate Route(net: Net, p: seq<NodeId>, u: NodeId, t: NodeId, n: nat)
  {
    Joins(net.links, p, u, t) && 2 <= |p| <= n + 1
  }

  function Cost(net: Net, p: seq<NodeId>): real
    requires |p| >= 2
  {
    Weight(net.imp, p[1..])
  }

  /** Every entry is a walk of at most `n` links through its next hop. */
  ghost predicate Sound(net: Net, s: Tables, n: nat)
    requires s.Keys == net.nodes
  {
    forall u, k :: u in net.nodes && k in s[u] ==> SoundEntry(net, u, k, s[u][k].cost, n)
  }

  ghost predicate SoundEntry(net: Net, u: NodeId, k: RouteKey, cost: real, n: nat)
  {
    && k.target != u && (u, k.via) in net.links
    && exists p :: Route(net, p, u, k.target, n) && p[1] == k.via && Cost(net, p) == cost
  }

  /** Every walk of at most `n` links is matched by an entry no dearer than it. */
  ghost predicate Full(net: Net, s: Tables, n: nat)
    requires s.Keys == net.nodes
  {
    forall u, t, p :: u in net.nodes && u != t && Route(net, p, u, t, n) ==>
                        exists via :: RouteKey(t, via) in s[u] && s[u][RouteKey(t, via)].cost <= Cost(net, p)
  }

  /** Direct routes stay, and a next hop other than the target has a route of its own. */
  ghost predicate Fed(net: Net, s: Tables)
    requires s.Keys == net.nodes
  {
    && (forall u, v :: (u, v) in net.links ==> u in net.nodes && RouteKey(v, v) in s[u] && s[u][RouteKey(v, v)].cost == 1.0)
    && (forall u, k :: u in net.nodes && k in s[u] && k.target != k.via ==>
          k.via in net.nodes && k.target in Targets(s[k.via]))
  }

  lemma LinkCost(net: Net, u: NodeId, v: NodeId)
    requires (u, v) in net.links
    ensures Route(net, [u, v], u, v, 1) && Cost(net, [u, v]) == 1.0
  {
    assert [u, v][1..] == [v] && [v][..0] == [];
  }

  lemma StartSound(net: Net, s: Tables)
    requires NetOk(net) && Started(net, s)
    ensures Sound(net, s, 1) && Fed(net, s)
  {
    forall u, k | u in net.nodes && k in s[u] ensures SoundEntry(net, u, k, s[u][k].cost, 1) {
      LinkCost(net, u, k.via);
    }
  }

  lemma StartFull(net: Net, s: Tables)
    requires NetOk(net) && Started(net, s)
    ensures Full(net, s, 1)
  {
    forall u, t, p | u in net.nodes && u != t && Route(net, p, u, t, 1)
      ensures exists via :: RouteKey(t, via) in s[u] && s[u][RouteKey(t, via)].cost <= Cost(net, p)
    {
      assert p == [u, t] && (p[0], p[1]) in net.links;
      LinkCost(net, u, t);
      assert RouteKey(t, t) in s[u];
    }
  }

  lemma ExtendRoute(net: Net, u: NodeId, h: NodeId, t: NodeId, q: seq<NodeId>, n: nat)
    requires Route(net, q, h, t, n) && (u, h) in net.links
    ensures Route(net, [u] + q, u, t, n + 1) && ([u] + q)[1] == h
    ensures Cost(net, [u] + q) == net.imp(h) + Cost(net, q)
  {
    WalkCons(net.links, u, q);
    assert ([u] + q)[1..] == q == [h] + q[1..];
    WeightCons(net.imp, h, q[1..]);
  }

  lemma BestIsSound(net: Net, s: Tables, h: NodeId, t: NodeId, n: nat)
    requires s.Keys == net.nodes && Sound(net, s, n) && h in net.nodes && t in Targets(s[h])
    ensures t != h && exists q :: Route(net, q, h, t, n) && Cost(net, q) == BestCost(s[h], t)
  {
    var via := BestEntry(s[h], t);
    assert SoundEntry(net, h, RouteKey(t, via), s[h][RouteKey(t, via)].cost, n);
  }

  lemma SoundThroughHop(net: Net, s: Tables, n: nat, u: NodeId, k: RouteKey)
    requires s.Keys == net.nodes && Sound(net, s, n) && k.via in net.nodes && k.target in Targets(s[k.via])
    requires (u, k.via) in net.links && k.target != u
    ensures SoundEntry(net, u, k, BestCost(s[k.via], k.target) + net.imp(k.via), n + 1)
  {
    hide Sound, Targets, Joins, BestCost;
    BestIsSound(net, s, k.via, k.target, n);
    var q :| Route(net, q, k.via, k.target, n) && Cost(net, q) == BestCost(s[k.via], k.target);
    ExtendRoute(net, u, k.via, k.target, q, n);
  }

  lemma SoundLonger(net: Net, u: NodeId, k: RouteKey, cost: real, n: nat)
    requires SoundEntry(net, u, k, cost, n)
    ensures SoundEntry(net, u, k, cost, n + 1)
  {
    var p :| Route(net, p, u, k.target, n) && p[1] == k.via && Cost(net, p) == cost;
    assert Route(net, p, u, k.target, n + 1);
  }

  lemma RoundSoundAt(net: Net, s: Tables, s': Tables, n: nat, u: NodeId, k: RouteKey)
    requires NetOk(net) && Round(net, s, s') && Sound(net, s, n)
    requires u in net.nodes && k in s'[u]
    ensures SoundEntry(net, u, k, s'[u][k].cost, n + 1)
  {
    hide Sound, SoundEntry, Targets, BestCost, Round, NetOk;
    RoundKeys(net, s, s');
    LinkNodes(net, u, k.via);
    RoundIs(net, s, s', u, k);
    if (u, k.via) in net.links && k.target != u && k.target in Targets(s[k.via]) {
      SoundThroughHop(net, s, n, u, k);
    } else {
      SoundAt(net, s, n, u, k);
      SoundLonger(net, u, k, s[u][k].cost, n);
    }
  }

  lemma SoundAt(net: Net, s: Tables, n: nat, u: NodeId, k: RouteKey)
    requires s.Keys == net.nodes && Sound(net, s, n) && u in net.nodes && k in s[u]
    ensures SoundEntry(net, u, k, s[u][k].cost, n)
  {
  }

  lemma RoundSound(net: Net, s: Tables, s': Tables, n: nat)
    requires NetOk(net) && Round(net, s, s') && Sound(net, s, n)
    ensures Sound(net, s', n + 1)
  {
    forall u, k | u in net.nodes && k in s'[u] ensures SoundEntry(net, u, k, s'[u][k].cost, n + 1) {
      RoundSoundAt(net, s, s', n, u, k);
    }
  }

  lemma RoundFed(net: Net, s: Tables, s': Tables, n: nat)
    requires NetOk(net) && Round(net, s, s') && Sound(net, s, n) && Fed(net, s)
    ensures Fed(net, s')
  {
    forall u, v | (u, v) in net.links
      ensures u in net.nodes && RouteKey(v, v) in s'[u] && s'[u][RouteKey(v, v)].cost == 1.0
    {
      RoundIs(net, s, s', u, RouteKey(v, v));
      NoRouteToSelf(net, s, v, n);
    }
    forall u, k | u in net.nodes && k in s'[u] && k.target != k.via
      ensures k.via in net.nodes && k.target in Targets(s'[k.via])
    {
      RoundIs(net, s, s', u, k);
      assert k.via in net.nodes && k.target in Targets(s[k.via]);
      TargetsGrow(net, s, s', k.via, k.target);
    }
  }

  lemma NoRouteToSelf(net: Net, s: Tables, v: NodeId, n: nat)
    requires s.Keys == net.nodes && Sound(net, s, n) && v in net.nodes
    ensures v !in Targets(s[v])
  {
    forall k | k in s[v] ensures k.target != v {
      SoundAt(net, s, n, v, k);
    }
  }

  lemma TargetsGrow(net: Net, s: Tables, s': Tables, u: NodeId, t: NodeId)
    requires NetOk(net) && Round(net, s, s') && u in net.nodes && t in Targets(s[u])
    ensures t in Targets(s'[u])
  {
    var k :| k in s[u] && k.target == t;
    RoundIs(net, s, s', u, k);
    assert k in s'[u];
  }

  lemma RoundFull(net: Net, s: Tables, s': Tables, n: nat, n': nat)
    requires NetOk(net) && Round(net, s, s') && Full(net, s, n) && Sound(net, s, n) && Fed(net, s) && n' == n + 1
    ensures Full(net, s', n')
  {
    RoundFed(net, s, s', n);
    forall u, t, p | u in net.nodes && u != t && Route(net, p, u, t, n')
      ensures exists via :: RouteKey(t, via) in s'[u] && s'[u][RouteKey(t, via)].cost <= Cost(net, p)
    {
      RoundFullAt(net, s, s', n, u, t, p);
    }
  }

  lemma RoundFullAt(net: Net, s: Tables, s': Tables, n: nat, u: NodeId, t: NodeId, p: seq<NodeId>)
    requires NetOk(net) && Round(net, s, s') && Full(net, s, n) && Fed(net, s')
    requires u in net.nodes && u != t && Route(net, p, u, t, n + 1)
    ensures exists via :: RouteKey(t, via) in s'[u] && s'[u][RouteKey(t, via)].cost <= Cost(net, p)
  {
    hide Round, Full, Fed, Targets, BestCost;
    RoundKeys(net, s, s');
    RouteTail(net, p, u, t, n);
    var h := p[1];
    if h == t {
      DirectCost(net, s', u, t);
      assert RouteKey(t, t) in s'[u] && s'[u][RouteKey(t, t)].cost <= Cost(net, p);
    } else {
      var via := FullAt(net, s, n, h, t, p[1..]);
      BestAtMost(s[h], RouteKey(t, via));
      RoundIs(net, s, s', u, RouteKey(t, h));
      assert RouteKey(t, h) in s'[u] && s'[u][RouteKey(t, h)].cost <= Cost(net, p);
    }
  }

  lemma LinkNodes(net: Net, u: NodeId, v: NodeId)
    requires NetOk(net)
    ensures (u, v) in net.links ==> u in net.nodes && v in net.nodes
  {
  }

  lemma RoundKeys(net: Net, s: Tables, s': Tables)
    requires Round(net, s, s')
    ensures s.Keys == net.nodes && s'.Keys == net.nodes
  {
  }

  lemma DirectCost(net: Net, s: Tables, u: NodeId, t: NodeId)
    requires s.Keys == net.nodes && Fed(net, s) && (u, t) in net.links
    ensures u in s && RouteKey(t, t) in s[u] && s[u][RouteKey(t, t)].cost == 1.0
  {
  }

  lemma FullAt(net: Net, s: Tables, n: nat, u: NodeId, t: NodeId, p: seq<NodeId>) returns (via: NodeId)
    requires s.Keys == net.nodes && Full(net, s, n) && u in net.nodes && u != t && Route(net, p, u, t, n)
    ensures RouteKey(t, via) in s[u] && s[u][RouteKey(t, via)].cost <= Cost(net, p)
  {
    via :| RouteKey(t, via) in s[u] && s[u][RouteKey(t, via)].cost <= Cost(net, p);
  }

  /** A walk of at most n + 1 links is one link, or one link and a walk of at most n. */
  lemma RouteTail(net: Net, p: seq<NodeId>, u: NodeId, t: NodeId, n: nat)
    requires NetOk(net) && Route(net, p, u, t, n + 1) && u != t
    ensures (u, p[1]) in net.links && p[1] in net.nodes && Cost(net, p) >= 1.0
    ensures p[1] != t ==> Route(net, p[1..], p[1], t, n) && Cost(net, p) == net.imp(p[1]) + Cost(net, p[1..])
  {
    var q := p[1..];
    WalkTail(net.links, p);
    SumAtLeast(net.imp, q[..|q| - 1]);
    if p[1] != t {
      CostCons(net, p);
    }
  }

  lemma CostCons(net: Net, p: seq<NodeId>)
    requires |p| >= 3
    ensures Cost(net, p) == net.imp(p[1]) + Cost(net, p[1..])
  {
    assert p[1..] == [p[1]] + p[1..][1..];
    WeightCons(net.imp, p[1], p[1..][1..]);
  }

  lemma StartNodes(net: Net, s: Tables)
    requires Started(net, s)
    ensures s.Keys == net.nodes
  {
  }

  lemma RoundNodes(net: Net, s: Tables, s': Tables)
    requires Round(net, s, s')
    ensures s'.Keys == net.nodes
  {
  }

  lemma {:induction false} RunKeeps(net: Net, run: seq<Tables>, i: nat)
    requires NetOk(net) && IsRun(net, run) && i < |run|
    ensures run[i].Keys == net.nodes
    ensures Sound(net, run[i], i + 1) && Full(net, run[i], i + 1) && Fed(net, run[i])
  {
    hide Sound, Full, Fed, Started, Round, NetOk;
    if i == 0 {
      StartSound(net, run[0]);
      StartFull(net, run[0]);
      StartNodes(net, run[0]);
    } else {
      var j := i - 1;
      RunKeeps(net, run, j);
      assert Round(net, run[j], run[i]);
      RoundNodes(net, run[j], run[i]);
      RoundSound(net, run[i - 1], run[i], i);
      RoundFed(net, run[i - 1], run[i], i);
      RoundFull(net, run[i - 1], run[i], i, i + 1);
    }
  }

  // ---------------------------------------------------------------- bounded-hop shortest paths

  ghost predicate Reaches(net: Net, u: NodeId, t: NodeId, n: nat)
  {
    exists p :: Route(net, p, u, t, n)
  }

  /** `c` is the least cost of a walk from `u` to `t` of at most `n` links. */
  ghost predicate Shortest(net: Net, u: NodeId, t: NodeId, n: nat, c: real)
  {
    && (exists p :: Route(net, p, u, t, n) && Cost(net, p) == c)
    && (forall p :: Route(net, p, u, t, n) ==> c <= Cost(net, p))
  }

  /**
   After round k, a node has a route to another exactly when a walk of at most
   k + 1 links leads there, and its cheapest cost is that of the cheapest such walk.
   */
  lemma RoundsComputeShortest(net: Net, run: seq<Tables>, k: nat, u: NodeId, t: NodeId)
    requires NetOk(net) && IsRun(net, run) && k < |run| && u in net.nodes && u != t
    ensures run[k].Keys == net.nodes
    ensures t in Targets(run[k][u]) <==> Reaches(net, u, t, k + 1)
    ensures t in Targets(run[k][u]) ==> Shortest(net, u, t, k + 1, BestCost(run[k][u], t))
  {
    hide Sound, Full, Fed, Targets, Route, BestCost, Started, Round;
    RunKeeps(net, run, k);
    if t in Targets(run[k][u]) {
      BestIsShortest(net, run[k], k + 1, u, t);
    }
    if Reaches(net, u, t, k + 1) {
      ReachedIsKnown(net, run[k], k + 1, u, t);
    }
  }

  lemma BestIsShortest(net: Net, s: Tables, n: nat, u: NodeId, t: NodeId)
    requires s.Keys == net.nodes && Sound(net, s, n) && Full(net, s, n)
    requires u in net.nodes && u != t && t in Targets(s[u])
    ensures Reaches(net, u, t, n) && Shortest(net, u, t, n, BestCost(s[u], t))
  {
    hide Sound, Joins, BestCost, Targets;
    BestIsSound(net, s, u, t, n);
    forall p | Route(net, p, u, t, n) ensures BestCost(s[u], t) <= Cost(net, p) {
      var via := FullAt(net, s, n, u, t, p);
      BestAtMost(s[u], RouteKey(t, via));
    }
  }

  lemma ReachedIsKnown(net: Net, s: Tables, n: nat, u: NodeId, t: NodeId)
    requires s.Keys == net.nodes && Full(net, s, n) && u in net.nodes && u != t && Reaches(net, u, t, n)
    ensures t in Targets(s[u])
  {
    hide Joins, BestCost, Targets;
    var p :| Route(net, p, u, t, n);
    var via := FullAt(net, s, n, u, t, p);
    BestAtMost(s[u], RouteKey(t, via));
  }

  /** A known target stays known, and its cheapest cost never rises. */
  lemma CostsNeverRise(net: Net, run: seq<Tables>, i: nat, j: nat, u: NodeId, t: NodeId)
    requires NetOk(net) && IsRun(net, run) && i <= j < |run| && u in net.nodes && u != t
    requires run[i].Keys == net.nodes && run[j].Keys == net.nodes && t in Targets(run[i][u])
    ensures t in Targets(run[j][u]) && BestCost(run[j][u], t) <= BestCost(run[i][u], t)
  {
    RoundsComputeShortest(net, run, i, u, t);
    RoundsComputeShortest(net, run, j, u, t);
    var p :| Route(net, p, u, t, i + 1) && Cost(net, p) == BestCost(run[i][u], t);
    assert Route(net, p, u, t, j + 1);
  }
}
