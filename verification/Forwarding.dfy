/** Final costs, and forwarding by cheapest next hop. */
module Forwarding {
  // Without purging, as many rounds as the mesh has nodes give the costs of the true
  // shortest paths, and after every round forwarding a frame by cheapest next hop, as
  // is done with an IHave on its way to the origin, descends strictly to the target.

  import opened Ordering
  import opened Routes
  import opened Walks
  import opened Rounds

  // ---------------------------------------------------------------- walks without repetitions

  /** A sequence longer than the set it draws from repeats an element. */
  lemma {:induction false} Repeats(p: seq<NodeId>, s: set<NodeId>) returns (i: nat, j: nat)
    requires (forall n :: n in p ==> n in s) && |p| > |s|
    ensures i < j < |p| && p[i] == p[j]
  {
    var last := |p| - 1;
    var front := p[..last];
    if p[last] in front {
      i :| 0 <= i < last && front[i] == p[last];
      j := last;
    } else {
      i, j := Repeats(front, s - {p[last]});
    }
  }

  lemma {:induction false} WalkNodes(net: Net, p: seq<NodeId>)
    requires NetOk(net) && IsWalk(net.links, p) && p[0] in net.nodes
    ensures forall n :: n in p ==> n in net.nodes
  {
    forall i | 0 <= i < |p| ensures p[i] in net.nodes {
      if i > 0 {
        assert (p[i - 1], p[i]) in net.links;
      }
    }
  }

  /** Cutting out what lies between two visits to a node. */
  lemma CutWalk(links: Links, p: seq<NodeId>, i: nat, j: nat)
    requires IsWalk(links, p) && i < j < |p| && p[i] == p[j]
    ensures IsWalk(links, p[..i] + p[j..])
  {
    var q := p[..i] + p[j..];
    forall a, b | 0 <= a && b == a + 1 && b < |q| ensures (q[a], q[b]) in links {
      if b < i {
        assert q[a] == p[a] && q[b] == p[b];
      } else if b == i {
        assert q[a] == p[a] && q[b] == p[j] == p[i];
      } else {
        assert q[a] == p[a + (j - i)] && q[b] == p[b + (j - i)];
      }
    }
  }

  lemma CutCost(net: Net, p: seq<NodeId>, i: nat, j: nat)
    requires NetOk(net) && i < j < |p| && |p| >= 2 && |p| - (j - i) >= 2
    ensures Cost(net, p[..i] + p[j..]) <= Cost(net, p)
  {
    var last := |p| - 1;
    if i == 0 {
      Between(p[j..]);
      Between(p);
      assert p[j..][1..|p[j..]| - 1] == p[j + 1..last];
      assert p[1..last] == p[1..j + 1] + p[j + 1..last];
      SumConcat(net.imp, p[1..j + 1], p[j + 1..last]);
      SumAtLeast(net.imp, p[1..j + 1]);
      assert p[..0] + p[j..] == p[j..];
    } else if j == last {
      CutEnd(net, p, i);
    } else {
      CutMiddle(net, p, i, j);
    }
  }

  /** The nodes that a walk passes through. */
  lemma Between(p: seq<NodeId>)
    requires |p| >= 2
    ensures p[1..][..|p| - 2] == p[1..|p| - 1]
  {
  }

  lemma CutEnd(net: Net, p: seq<NodeId>, i: nat)
    requires NetOk(net) && 1 <= i < |p| - 1
    ensures Cost(net, p[..i] + p[|p| - 1..]) <= Cost(net, p)
  {
    var q, last := p[..i] + p[|p| - 1..], |p| - 1;
    Between(p);
    Between(q);
    assert q[1..|q| - 1] == p[1..i];
    assert p[1..last] == p[1..i] + p[i..last];
    SumConcat(net.imp, p[1..i], p[i..last]);
    SumAtLeast(net.imp, p[i..last]);
  }

  lemma CutMiddle(net: Net, p: seq<NodeId>, i: nat, j: nat)
    requires NetOk(net) && 1 <= i < j < |p| - 1
    ensures Cost(net, p[..i] + p[j..]) <= Cost(net, p)
  {
    var q, last := p[..i] + p[j..], |p| - 1;
    var a, b, c := p[1..i], p[i..j], p[j..last];
    Between(p);
    Between(q);
    assert q[1..|q| - 1] == a + c;
    assert p[1..last] == a + (b + c);
    SumConcat(net.imp, a, b + c);
    SumConcat(net.imp, b, c);
    SumConcat(net.imp, a, c);
    SumAtLeast(net.imp, b);
  }

  /** Every walk is matched by one that visits no more nodes than there are, at no greater cost. */
  lemma {:induction false} ShortWalk(net: Net, p: seq<NodeId>, u: NodeId, t: NodeId) returns (q: seq<NodeId>)
    requires NetOk(net) && Joins(net.links, p, u, t) && u in net.nodes && u != t
    ensures Joins(net.links, q, u, t) && 2 <= |q| <= |net.nodes| && Cost(net, q) <= Cost(net, p)
    decreases |p|
  {
    if |p| <= |net.nodes| {
      q := p;
    } else {
      WalkNodes(net, p);
      var i, j := Repeats(p, net.nodes);
      var r := p[..i] + p[j..];
      CutWalk(net.links, p, i, j);
      assert r[0] == u && r[|r| - 1] == t;
      CutCost(net, p, i, j);
      q := ShortWalk(net, r, u, t);
    }
  }

  // ---------------------------------------------------------------- final costs

  /** Enough rounds for walks that visit every node. */
  ghost predicate Enough(net: Net, k: nat)
  {
    k + 2 >= |net.nodes|
  }

  /**
   From round |nodes| - 2 on, a node knows every target it can reach at all, at
   the cost of a true shortest path, of whatever length.
   */
  lemma CostsAreFinal(net: Net, run: seq<Tables>, k: nat, u: NodeId, t: NodeId, p: seq<NodeId>)
    requires NetOk(net) && IsRun(net, run) && k < |run| && Enough(net, k)
    requires u in net.nodes && u != t && Joins(net.links, p, u, t)
    ensures run[k].Keys == net.nodes
    ensures t in Targets(run[k][u]) && BestCost(run[k][u], t) <= Cost(net, p)
    ensures Shortest(net, u, t, k + 1, BestCost(run[k][u], t))
  {
    var q := ShortWalk(net, p, u, t);
    var n := k + 1;
    assert Route(net, q, u, t, n);
    RoundsComputeShortest(net, run, k, u, t);
  }

  lemma SameFinalCost(net: Net, run: seq<Tables>, i: nat, j: nat, u: NodeId, t: NodeId)
    requires NetOk(net) && IsRun(net, run) && i < |run| && j < |run| && Enough(net, i) && Enough(net, j)
    requires u in net.nodes && u != t
    ensures run[i].Keys == net.nodes && run[j].Keys == net.nodes
    ensures t in Targets(run[i][u]) <==> t in Targets(run[j][u])
    ensures t in Targets(run[i][u]) ==> BestCost(run[i][u], t) == BestCost(run[j][u], t)
  {
    RoundsComputeShortest(net, run, i, u, t);
    RoundsComputeShortest(net, run, j, u, t);
    if t in Targets(run[i][u]) {
      NoCheaperThan(net, run, i, j, u, t);
      NoCheaperThan(net, run, j, i, u, t);
    } else if t in Targets(run[j][u]) {
      NoCheaperThan(net, run, j, i, u, t);
    }
  }

  lemma NoCheaperThan(net: Net, run: seq<Tables>, i: nat, j: nat, u: NodeId, t: NodeId)
    requires NetOk(net) && IsRun(net, run) && i < |run| && j < |run| && Enough(net, j)
    requires u in net.nodes && u != t
    requires run[i].Keys == net.nodes && run[j].Keys == net.nodes && t in Targets(run[i][u])
    ensures t in Targets(run[j][u]) && BestCost(run[j][u], t) <= BestCost(run[i][u], t)
  {
    RoundsComputeShortest(net, run, i, u, t);
    var n := i + 1;
    var p :| Route(net, p, u, t, n) && Cost(net, p) == BestCost(run[i][u], t);
    CostsAreFinal(net, run, j, u, t, p);
  }

  // ---------------------------------------------------------------- forwarding

  /** A cheapest next hop is the target itself, or is nearer to it by at least one. */
  ghost predicate Descending(net: Net, s: Tables)
    requires s.Keys == net.nodes
  {
    forall u, t, v :: u in net.nodes && IsBest(s[u], t, v) ==>
                        if v == t then s[u][RouteKey(t, v)].cost >= 1.0 else Nearer(net, s, u, t, v)
  }

  ghost predicate Nearer(net: Net, s: Tables, u: NodeId, t: NodeId, v: NodeId)
    requires s.Keys == net.nodes && u in net.nodes && IsBest(s[u], t, v)
  {
    v in net.nodes && t in Targets(s[v]) && s[u][RouteKey(t, v)].cost >= BestCost(s[v], t) + 1.0
  }

  /** A gossip fixpoint, where one more round changes no cost, is descending. */
  lemma FixpointDescends(net: Net, s: Tables, s': Tables, n: nat)
    requires NetOk(net) && Round(net, s, s') && Sound(net, s, n) && Fed(net, s)
    requires forall u :: u in net.nodes ==> SameCosts(s[u], s'[u])
    ensures Descending(net, s)
  {
    forall u, t, v | u in net.nodes && IsBest(s[u], t, v)
      ensures if v == t then s[u][RouteKey(t, v)].cost >= 1.0 else Nearer(net, s, u, t, v)
    {
      var k := RouteKey(t, v);
      SoundAt(net, s, n, u, k);
      if v != t {
        RoundIs(net, s, s', u, k);
        assert SameCosts(s[u], s'[u]);
      }
    }
  }

  /** Every state of a run is descending, whether or not its costs are final. */
  lemma RoundsDescend(net: Net, run: seq<Tables>, k: nat)
    requires NetOk(net) && IsRun(net, run) && k < |run|
    ensures run[k].Keys == net.nodes && Descending(net, run[k])
  {
    hide IsRun, NetOk, Sound, Full, Fed, Nearer;
    RunKeeps(net, run, k);
    forall u, t, v | u in net.nodes && IsBest(run[k][u], t, v)
      ensures if v == t then run[k][u][RouteKey(t, v)].cost >= 1.0 else Nearer(net, run[k], u, t, v)
    {
      EntryCost(net, run, k, u, RouteKey(t, v));
      if v != t {
        RelayNearer(net, run, k, u, t, v);
      }
    }
  }

  /** The cost through a relay is what the relay had before the round, and that cannot have risen. */
  lemma RelayNearer(net: Net, run: seq<Tables>, k: nat, u: NodeId, t: NodeId, v: NodeId)
    requires NetOk(net) && IsRun(net, run) && k < |run|
    requires run[k].Keys == net.nodes && u in net.nodes && v != t && IsBest(run[k][u], t, v)
    ensures Nearer(net, run[k], u, t, v)
  {
    hide IsRun, Round, Sound, Full, Fed, BestCost, Targets, SoundEntry, NetOk;
    if k == 0 {
      StartDirect(net, run, u, RouteKey(t, v));
    } else {
      RunKeeps(net, run, k - 1);
      RunKeeps(net, run, k);
      RoundOf(net, run, k);
      CostIsFresh(net, run[k - 1], run[k], k, u, RouteKey(t, v));
      CostsNeverRise(net, run, k - 1, k, v, t);
    }
  }

  lemma StartDirect(net: Net, run: seq<Tables>, u: NodeId, k: RouteKey)
    requires IsRun(net, run) && run[0].Keys == net.nodes && u in net.nodes && k in run[0][u]
    ensures k.target == k.via
  {
  }

  lemma RoundOf(net: Net, run: seq<Tables>, k: nat)
    requires IsRun(net, run) && 0 < k < |run|
    ensures Round(net, run[k - 1], run[k])
  {
    var i := k - 1;
    assert 0 <= i && k == i + 1 && k < |run|;
  }

  /** An entry through a relay was set in the round that just ended. */
  lemma CostIsFresh(net: Net, s: Tables, s': Tables, k: nat, u: NodeId, key: RouteKey)
    requires NetOk(net) && Round(net, s, s') && Fed(net, s) && Sound(net, s', k + 1)
    requires u in net.nodes && key in s'[u] && key.target != key.via
    ensures key.via in net.nodes && key.target in Targets(s[key.via])
    ensures s'[u][key].cost >= BestCost(s[key.via], key.target) + 1.0
  {
    hide Round, Fed, Sound, BestCost, Targets, NetOk;
    RoundKeys(net, s, s');
    FedBefore(net, s, s', u, key);
    SoundAt(net, s', k + 1, u, key);
    RoundIs(net, s, s', u, key);
    ImpedanceAtLeastOne(net, key.via);
  }

  lemma ImpedanceAtLeastOne(net: Net, v: NodeId)
    requires NetOk(net)
    ensures net.imp(v) >= 1.0
  {
  }

  /** Every stored cost is at least one. */
  lemma EntryCost(net: Net, run: seq<Tables>, k: nat, u: NodeId, e: RouteKey)
    requires NetOk(net) && IsRun(net, run) && k < |run|
    requires run[k].Keys == net.nodes && u in net.nodes && e in run[k][u]
    ensures run[k][u][e].cost >= 1.0
  {
    hide IsRun, Sound, Full, Fed, Joins;
    RunKeeps(net, run, k);
    SoundAt(net, run[k], k + 1, u, e);
    var n := k + 1;
    var p :| Route(net, p, u, e.target, n) && p[1] == e.via && Cost(net, p) == run[k][u][e].cost;
    SumAtLeast(net.imp, p[1..][..|p| - 2]);
  }

  lemma FedBefore(net: Net, s: Tables, s': Tables, u: NodeId, k: RouteKey)
    requires NetOk(net) && Round(net, s, s') && Fed(net, s)
    requires u in net.nodes && k in s'[u] && k.target != k.via
    ensures k.via in net.nodes && k.target in Targets(s[k.via])
  {
    RoundIs(net, s, s', u, k);
  }

  /** `u` hands a frame for `t` to `v`: not arrived yet, and `v` is a cheapest next hop. */
  ghost predicate Hands(net: Net, s: Tables, t: NodeId, u: NodeId, v: NodeId)
    requires s.Keys == net.nodes
  {
    u != t && u in net.nodes && IsBest(s[u], t, v)
  }

  ghost predicate CanHand(net: Net, s: Tables, t: NodeId, u: NodeId)
    requires s.Keys == net.nodes
  {
    exists v :: Hands(net, s, t, u, v)
  }

  /** The nodes a frame for `t` passes when every node hands it to a cheapest next hop. */
  ghost predicate Forwards(net: Net, s: Tables, t: NodeId, q: seq<NodeId>)
    requires s.Keys == net.nodes
  {
    && q != []
    && forall i, j :: 0 <= i && j == i + 1 && j < |q| ==> Hands(net, s, t, q[i], q[j])
  }

  /** What is left to go from a node of the trace. */
  ghost function Remaining(net: Net, s: Tables, t: NodeId, u: NodeId): real
    requires s.Keys == net.nodes
  {
    if u != t && u in net.nodes && t in Targets(s[u]) then BestCost(s[u], t) else 0.0
  }

  ghost predicate HasWay(net: Net, s: Tables, t: NodeId, u: NodeId)
    requires s.Keys == net.nodes
  {
    u == t || (u in net.nodes && t in Targets(s[u]))
  }

  lemma HopDescends(net: Net, s: Tables, t: NodeId, u: NodeId, v: NodeId)
    requires s.Keys == net.nodes && Descending(net, s) && Hands(net, s, t, u, v)
    ensures HasWay(net, s, t, u) && HasWay(net, s, t, v)
    ensures Remaining(net, s, t, v) <= Remaining(net, s, t, u) - 1.0
  {
    assert RouteKey(t, v) in s[u];
    var w := BestEntry(s[u], t);
    assert s[u][RouteKey(t, v)].cost == BestCost(s[u], t);
    if v != t {
      assert Nearer(net, s, u, t, v);
    }
  }

  lemma {:induction false} TraceDescends(net: Net, s: Tables, t: NodeId, q: seq<NodeId>, i: nat, j: nat)
    requires s.Keys == net.nodes && Descending(net, s) && Forwards(net, s, t, q) && i <= j < |q|
    requires HasWay(net, s, t, q[i])
    ensures HasWay(net, s, t, q[j])
    ensures Remaining(net, s, t, q[j]) <= Remaining(net, s, t, q[i]) - (j - i) as real
  {
    if i < j {
      TraceDescends(net, s, t, q, i, j - 1);
      var a := j - 1;
      assert Hands(net, s, t, q[a], q[j]);
      HopDescends(net, s, t, q[a], q[j]);
    }
  }

  ghost predicate CostsPositive(net: Net, s: Tables)
    requires s.Keys == net.nodes
  {
    forall v, k :: v in net.nodes && k in s[v] ==> s[v][k].cost >= 1.0
  }

  lemma RemainingNonNegative(net: Net, s: Tables, t: NodeId, u: NodeId)
    requires s.Keys == net.nodes && Descending(net, s)
    requires CostsPositive(net, s)
    ensures Remaining(net, s, t, u) >= 0.0
  {
    if u != t && u in net.nodes && t in Targets(s[u]) {
      var w := BestEntry(s[u], t);
    }
  }

  /**
   From a node with a route, forwarding takes at most as many hops as the whole
   part of its cost, never visits a node twice, and never gets stuck: where it has
   not arrived there is a next hop to hand the frame to.
   */
  lemma ForwardingArrives(net: Net, s: Tables, t: NodeId, q: seq<NodeId>)
    requires s.Keys == net.nodes && Descending(net, s) && Forwards(net, s, t, q)
    requires q[0] in net.nodes && q[0] != t && t in Targets(s[q[0]])
    requires CostsPositive(net, s)
    ensures |q| - 1 <= BestCost(s[q[0]], t).Floor
    ensures Distinct(q)
    ensures q[|q| - 1] != t ==> CanHand(net, s, t, q[|q| - 1])
  {
    var last := |q| - 1;
    TraceDescends(net, s, t, q, 0, last);
    RemainingNonNegative(net, s, t, q[last]);
    forall i, j | 0 <= i < j < |q| ensures q[i] != q[j] {
      TraceDescends(net, s, t, q, 0, i);
      TraceDescends(net, s, t, q, i, j);
    }
    if q[last] != t {
      var v := BestEntry(s[q[last]], t);
      assert Hands(net, s, t, q[last], v);
    }
  }

  /** Some way of forwarding reaches the target; none can stop earlier, as `ForwardingArrives` says. */
  lemma {:induction false} DeliveryExists(net: Net, s: Tables, t: NodeId, u: NodeId) returns (q: seq<NodeId>)
    requires s.Keys == net.nodes && Descending(net, s) && CostsPositive(net, s)
    requires u in net.nodes && u != t && t in Targets(s[u])
    ensures Forwards(net, s, t, q) && q[0] == u && q[|q| - 1] == t
    decreases BestCost(s[u], t).Floor
  {
    hide Descending, IsBest, Targets, BestCost;
    var v := BestEntry(s[u], t);
    assert Hands(net, s, t, u, v);
    HopDescends(net, s, t, u, v);
    if v == t {
      q := [u, t];
    } else {
      RemainingNonNegative(net, s, t, v);
      var rest := DeliveryExists(net, s, t, v);
      q := [u] + rest;
      forall i, j | 0 <= i && j == i + 1 && j < |q| ensures Hands(net, s, t, q[i], q[j]) {
        if i > 0 {
          assert q[i] == rest[i - 1] && q[j] == rest[j - 1];
        }
      }
    }
  }

  /**
   In every purge-free run, after every round k, a frame for any target within
   k + 1 links is delivered loop-free within floor(cost) hops, whichever cheapest
   next hop each node picks.
   */
  lemma RunsDeliver(net: Net, run: seq<Tables>, k: nat, t: NodeId, q: seq<NodeId>)
    requires NetOk(net) && IsRun(net, run) && k < |run|
    requires run[k].Keys == net.nodes && Forwards(net, run[k], t, q)
    requires q[0] in net.nodes && q[0] != t && Reaches(net, q[0], t, k + 1)
    ensures t in Targets(run[k][q[0]]) && |q| - 1 <= BestCost(run[k][q[0]], t).Floor
    ensures Distinct(q)
    ensures q[|q| - 1] != t ==> CanHand(net, run[k], t, q[|q| - 1])
  {
    RoundsDescend(net, run, k);
    forall v, e | v in net.nodes && e in run[k][v] ensures run[k][v][e].cost >= 1.0 {
      EntryCost(net, run, k, v, e);
    }
    RoundsComputeShortest(net, run, k, q[0], t);
    ForwardingArrives(net, run[k], t, q);
  }
}
