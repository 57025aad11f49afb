/** Synchronous gossip with the purge that opens every tick. */
module TickedRounds {
  // As in `Rounds`, but every node first drops what it has not refreshed within three
  // intervals. Nothing refreshes the routes to direct neighbours. So rounds behave as
  // if nothing were purged for three intervals; from then on nobody has a neighbour as
  // a direct route, the costs that are left feed on each other and grow with every
  // round, and frames no longer arrive.

  import opened Ordering
  import opened Routes
  import opened Walks
  import opened Rounds
  import opened Forwarding

  // ---------------------------------------------------------------- ticks

  function Purged(s: Tables, cutoff: int): (r: Tables)
    ensures r.Keys == s.Keys
  {
    map u | u in s :: Fresh(s[u], cutoff)
  }

  /** Every node purges and sends, and then absorbs what its neighbours sent. */
  ghost predicate Tick(net: Net, s: Tables, s': Tables, now: int, interval: int)
  {
    && s.Keys == net.nodes && s'.Keys == net.nodes
    && RoundAt(net, Purged(s, now - 3 * interval), s', now)
  }

  ghost predicate RoundAt(net: Net, s: Tables, s': Tables, now: int)
    requires s.Keys == net.nodes && s'.Keys == net.nodes
  {
    exists sent :: IsRoundOf(net, s, s', sent, now)
  }

  ghost predicate StartedAt(net: Net, s: Tables, at: int)
  {
    Started(net, s) && forall u, k :: u in s && k in s[u] ==> s[u][k].seen == at
  }

  /** Jitter moves a tick by a tenth of the interval; half of it is allowed for here. */
  predicate Near(a: int, b: int, interval: int)
  {
    a <= b && 2 * (b - a) < 3 * interval
  }

  ghost predicate Ticking(times: seq<int>, interval: int)
  {
    && interval > 0
    && forall i, j :: 0 <= i && j == i + 1 && j < |times| ==> Near(times[i], times[j], interval)
  }

  /** The states at the registration of all peers, `times[0]`, and after each tick. */
  ghost predicate IsTicked(net: Net, run: seq<Tables>, times: seq<int>, interval: int)
  {
    && 0 < |run| == |times| && StartedAt(net, run[0], times[0]) && Ticking(times, interval)
    && forall i, j :: 0 <= i && j == i + 1 && j < |run| ==> Tick(net, run[i], run[j], times[j], interval)
  }

  /** At tick `k` three intervals have passed since the registration. */
  predicate Expired(times: seq<int>, interval: int, k: nat)
    requires k < |times|
  {
    times[k] >= times[0] + 3 * interval
  }

  lemma {:induction false} TimesGrow(times: seq<int>, interval: int, i: nat, j: nat)
    requires Ticking(times, interval) && i <= j < |times|
    ensures times[i] <= times[j]
  {
    if i < j {
      TimesGrow(times, interval, i, j - 1);
      var h := j - 1;
      assert Near(times[h], times[j], interval);
    }
  }

  /** The first tick after three intervals; it is the third tick at the earliest. */
  lemma FirstExpired(times: seq<int>, interval: int, k: nat) returns (m: nat)
    requires Ticking(times, interval) && k < |times| && Expired(times, interval, k)
    ensures 3 <= m <= k && Expired(times, interval, m) && !Expired(times, interval, m - 1)
  {
    m := k;
    while m > 0 && Expired(times, interval, m - 1)
      invariant m <= k && Expired(times, interval, m)
    {
      m := m - 1;
    }
    SecondTick(times, interval);
  }

  lemma SecondTick(times: seq<int>, interval: int)
    requires Ticking(times, interval)
    ensures forall i :: 0 <= i < |times| && i <= 2 ==> !Expired(times, interval, i)
  {
    assert |times| > 1 ==> Near(times[0], times[1], interval);
    assert |times| > 2 ==> Near(times[1], times[2], interval);
  }

  lemma TickOf(net: Net, run: seq<Tables>, times: seq<int>, interval: int, k: nat)
    requires IsTicked(net, run, times, interval) && 0 < k < |run|
    ensures Tick(net, run[k - 1], run[k], times[k], interval) && Near(times[k - 1], times[k], interval)
  {
    var i := k - 1;
    assert 0 <= i && k == i + 1 && k < |run|;
  }

  lemma NothingPurged(s: Tables, cutoff: int)
    requires forall u, k :: u in s && k in s[u] ==> s[u][k].seen > cutoff
    ensures Purged(s, cutoff) == s
  {
    forall u | u in s ensures Fresh(s[u], cutoff) == s[u] {
    }
  }

  // ---------------------------------------------------------------- the first three intervals

  /** Direct routes date from the registration, all others from the last round. */
  ghost predicate Dated(s: Tables, at: int, now: int)
  {
    forall u, k :: u in s && k in s[u] ==> s[u][k].seen == if k.target == k.via then at else now
  }

  lemma DatedRound(net: Net, s: Tables, s': Tables, sent: map<NodeId, seq<GossipRoute>>, at: int, before: int, now: int, n: nat)
    requires s.Keys == net.nodes && s'.Keys == net.nodes
    requires NetOk(net) && IsRoundOf(net, s, s', sent, now) && Dated(s, at, before) && Sound(net, s, n) && Fed(net, s)
    ensures Dated(s', at, now)
  {
    forall u, k | u in s' && k in s'[u] ensures s'[u][k].seen == if k.target == k.via then at else now {
      hide Sound, Targets, IsRoundOf, BestCost, NetOk;
      LinkNodes(net, u, k.via);
      RoundOfIs(net, s, s', sent, now, u, k);
      if k in s[u] {
        SoundAt(net, s, n, u, k);
        NoRouteToSelf(net, s, k.via, n);
      } else if k.target == k.via {
        NoRouteToSelf(net, s, k.via, n);
      }
    }
  }

  lemma StartDated(net: Net, s: Tables, at: int)
    requires StartedAt(net, s, at)
    ensures Dated(s, at, at)
  {
  }

  /** One tick that purges nothing is a round. */
  lemma EarlyTick(net: Net, s: Tables, s': Tables, at: int, before: int, now: int, interval: int, n: nat)
    requires NetOk(net) && Tick(net, s, s', now, interval) && Dated(s, at, before) && Sound(net, s, n) && Fed(net, s)
    requires at <= before && now < at + 3 * interval
    ensures Round(net, s, s') && Dated(s', at, now)
  {
    hide Sound, Fed, NetOk, IsRoundOf;
    forall u, k | u in s && k in s[u] ensures s[u][k].seen > now - 3 * interval {
      assert s[u][k].seen == if k.target == k.via then at else before;
    }
    NothingPurged(s, now - 3 * interval);
    var sent :| IsRoundOf(net, s, s', sent, now);
    DatedRound(net, s, s', sent, at, before, now, n);
  }

  lemma RunSnoc(net: Net, run: seq<Tables>, k: nat)
    requires 0 < k < |run| && IsRun(net, run[..k]) && Round(net, run[k - 1], run[k])
    ensures IsRun(net, run[..k + 1])
  {
    hide Round, Started;
    forall i, j | 0 <= i && j == i + 1 && j < k + 1 ensures Round(net, run[i], run[j]) {
      if j < k {
        assert Round(net, run[..k][i], run[..k][j]);
      }
    }
  }

  lemma {:induction false} BeforeExpiry(net: Net, run: seq<Tables>, times: seq<int>, interval: int, k: nat)
    requires NetOk(net) && IsTicked(net, run, times, interval) && k < |run| && !Expired(times, interval, k)
    ensures IsRun(net, run[..k + 1]) && Dated(run[k], times[0], times[k])
  {
    hide Started, Tick, NetOk, Round, Sound, Fed, Full, IsRun, Dated;
    if k == 0 {
      StartDated(net, run[0], times[0]);
      OneState(net, run);
    } else {
      TickOf(net, run, times, interval, k);
      BeforeExpiry(net, run, times, interval, k - 1);
      RunKeeps(net, run[..k], k - 1);
      assert run[..k][k - 1] == run[k - 1];
      TimesGrow(times, interval, 0, k - 1);
      EarlyTick(net, run[k - 1], run[k], times[0], times[k - 1], times[k], interval, k);
      RunSnoc(net, run, k);
    }
  }

  lemma OneState(net: Net, run: seq<Tables>)
    requires run != [] && Started(net, run[0])
    ensures IsRun(net, run[..1])
  {
  }

  // ---------------------------------------------------------------- walks of at least so many links

  /** A walk of `lo` to `hi` links that comes to the target only at its end. */
  ghost predicate Arrival(net: Net, p: seq<NodeId>, u: NodeId, t: NodeId, lo: nat, hi: nat)
  {
    Joins(net.links, p, u, t) && |p| >= 2 && lo + 1 <= |p| <= hi + 1 && t !in p[..|p| - 1]
  }

  ghost predicate LongSound(net: Net, s: Tables, lo: nat, hi: nat)
    requires s.Keys == net.nodes
  {
    forall u, k :: u in net.nodes && k in s[u] ==> LongEntry(net, u, k, s[u][k].cost, lo, hi)
  }

  ghost predicate LongEntry(net: Net, u: NodeId, k: RouteKey, cost: real, lo: nat, hi: nat)
  {
    exists p :: Arrival(net, p, u, k.target, lo, hi) && p[1] == k.via && Cost(net, p) == cost
  }

  ghost predicate LongFull(net: Net, s: Tables, lo: nat, hi: nat)
    requires s.Keys == net.nodes
  {
    forall u, t, p :: u in net.nodes && Arrival(net, p, u, t, lo, hi) ==> Matched(net, s[u], t, p)
  }

  /** The walk is matched by an entry through its second node that is no dearer. */
  ghost predicate Matched(net: Net, table: Table, t: NodeId, p: seq<NodeId>)
    requires |p| >= 2
  {
    RouteKey(t, p[1]) in table && table[RouteKey(t, p[1])].cost <= Cost(net, p)
  }

  ghost predicate Recent(s: Tables, now: int)
  {
    forall u, k :: u in s && k in s[u] ==> s[u][k].seen == now
  }

  lemma ArrivalTail(net: Net, p: seq<NodeId>, u: NodeId, t: NodeId, lo: nat, hi: nat)
    requires NetOk(net) && Arrival(net, p, u, t, lo + 1, hi + 1) && lo >= 1
    ensures u != t && p[1] != t && (u, p[1]) in net.links && p[1] in net.nodes
    ensures Arrival(net, p[1..], p[1], t, lo, hi) && Cost(net, p) == net.imp(p[1]) + Cost(net, p[1..])
  {
    var q := p[1..];
    assert p[..|p| - 1][0] == u && p[..|p| - 1][1] == p[1];
    WalkTail(net.links, p);
    assert q[..|q| - 1] == p[..|p| - 1][1..];
    CostCons(net, p);
  }

  lemma ArrivalCons(net: Net, u: NodeId, q: seq<NodeId>, h: NodeId, t: NodeId, lo: nat, hi: nat)
    requires Arrival(net, q, h, t, lo, hi) && (u, h) in net.links && u != t
    ensures Arrival(net, [u] + q, u, t, lo + 1, hi + 1) && ([u] + q)[1] == h
    ensures Cost(net, [u] + q) == net.imp(h) + Cost(net, q)
  {
    var p := [u] + q;
    WalkCons(net.links, u, q);
    assert p[..|p| - 1] == [u] + q[..|q| - 1];
    assert p[1..] == q == [h] + q[1..];
    WeightCons(net.imp, h, q[1..]);
  }

  lemma LongFullAt(net: Net, s: Tables, lo: nat, hi: nat, u: NodeId, t: NodeId, p: seq<NodeId>)
    requires s.Keys == net.nodes && LongFull(net, s, lo, hi) && u in net.nodes && Arrival(net, p, u, t, lo, hi)
    ensures Matched(net, s[u], t, p)
  {
  }

  lemma LongSoundAt(net: Net, s: Tables, lo: nat, hi: nat, u: NodeId, k: RouteKey) returns (p: seq<NodeId>)
    requires s.Keys == net.nodes && LongSound(net, s, lo, hi) && u in net.nodes && k in s[u]
    ensures Arrival(net, p, u, k.target, lo, hi) && p[1] == k.via && Cost(net, p) == s[u][k].cost
  {
    assert LongEntry(net, u, k, s[u][k].cost, lo, hi);
    p :| Arrival(net, p, u, k.target, lo, hi) && p[1] == k.via && Cost(net, p) == s[u][k].cost;
  }

  /** A next hop has a route of its own, if need be back through the node itself. */
  lemma LongFed(net: Net, s: Tables, lo: nat, hi: nat, u: NodeId, k: RouteKey)
    requires NetOk(net) && s.Keys == net.nodes && LongSound(net, s, lo, hi) && LongFull(net, s, lo, hi) && 2 <= lo < hi
    requires u in net.nodes && k in s[u]
    ensures k.target != u && k.target != k.via && (u, k.via) in net.links && k.via in net.nodes
    ensures k.target in Targets(s[k.via])
  {
    hide LongSound, LongFull, Arrival, Targets;
    var h, t := k.via, k.target;
    var p := LongSoundAt(net, s, lo, hi, u, k);
    ArrivalTail(net, p, u, t, lo - 1, hi - 1);
    var q := p[1..];
    var far := q;
    if |q| <= lo {
      LinkBack(net, u, h);
      ArrivalCons(net, u, q, h, t, lo - 1, hi - 1);
      ArrivalCons(net, h, [u] + q, u, t, lo, hi);
      far := [h] + ([u] + q);
    }
    ArrivalSize(net, p, u, t, lo, hi);
    ArrivalResize(net, far, h, t, lo, hi);
    LongFullAt(net, s, lo, hi, h, t, far);
    KeyTarget(s[h], RouteKey(t, far[1]));
  }

  lemma LinkBack(net: Net, u: NodeId, v: NodeId)
    requires NetOk(net) && (u, v) in net.links
    ensures (v, u) in net.links
  {
  }

  lemma ArrivalSize(net: Net, p: seq<NodeId>, u: NodeId, t: NodeId, lo: nat, hi: nat)
    requires Arrival(net, p, u, t, lo, hi)
    ensures lo + 1 <= |p| <= hi + 1
  {
  }

  lemma ArrivalResize(net: Net, p: seq<NodeId>, u: NodeId, t: NodeId, lo: nat, hi: nat)
    requires (exists a, b :: Arrival(net, p, u, t, a, b)) && lo + 1 <= |p| <= hi + 1
    ensures Arrival(net, p, u, t, lo, hi)
  {
  }

  lemma KeyTarget(t: Table, k: RouteKey)
    requires k in t
    ensures k.target in Targets(t)
  {
  }

  // ---------------------------------------------------------------- one round of long walks

  lemma LongRefreshed(net: Net, s: Tables, s': Tables, sent: map<NodeId, seq<GossipRoute>>, now: int,
                      lo: nat, hi: nat, u: NodeId, k: RouteKey)
    requires NetOk(net) && s.Keys == net.nodes && s'.Keys == net.nodes && IsRoundOf(net, s, s', sent, now)
    requires LongSound(net, s, lo, hi) && LongFull(net, s, lo, hi) && 2 <= lo < hi
    requires u in net.nodes && k in s'[u]
    ensures LongEntry(net, u, k, s'[u][k].cost, lo + 1, hi + 1) && s'[u][k].seen == now
  {
    hide LongSound, LongFull, Arrival, Targets, IsRoundOf, BestCost, NetOk;
    LinkNodes(net, u, k.via);
    RoundOfIs(net, s, s', sent, now, u, k);
    if k in s[u] {
      LongFed(net, s, lo, hi, u, k);
    }
    var via := BestEntry(s[k.via], k.target);
    var q := LongSoundAt(net, s, lo, hi, k.via, RouteKey(k.target, via));
    ArrivalCons(net, u, q, k.via, k.target, lo, hi);
  }

  lemma LongMatched(net: Net, s: Tables, s': Tables, sent: map<NodeId, seq<GossipRoute>>, now: int,
                    lo: nat, hi: nat, u: NodeId, t: NodeId, p: seq<NodeId>)
    requires NetOk(net) && s.Keys == net.nodes && s'.Keys == net.nodes && IsRoundOf(net, s, s', sent, now)
    requires LongFull(net, s, lo, hi) && lo >= 1
    requires u in net.nodes && Arrival(net, p, u, t, lo + 1, hi + 1)
    ensures Matched(net, s'[u], t, p)
  {
    hide LongFull, Targets, IsRoundOf, BestCost;
    ArrivalTail(net, p, u, t, lo, hi);
    var h, q := p[1], p[1..];
    LongFullAt(net, s, lo, hi, h, t, q);
    BestAtMost(s[h], RouteKey(t, q[1]));
    RoundOfIs(net, s, s', sent, now, u, RouteKey(t, h));
  }

  /** A round replaces every entry by a walk that is one link longer. */
  lemma RoundLong(net: Net, s: Tables, s': Tables, sent: map<NodeId, seq<GossipRoute>>, now: int, lo: nat, hi: nat)
    requires NetOk(net) && s.Keys == net.nodes && s'.Keys == net.nodes && IsRoundOf(net, s, s', sent, now)
    requires LongSound(net, s, lo, hi) && LongFull(net, s, lo, hi) && 2 <= lo < hi
    ensures LongSound(net, s', lo + 1, hi + 1) && LongFull(net, s', lo + 1, hi + 1) && Recent(s', now)
  {
    forall u, k | u in net.nodes && k in s'[u]
      ensures LongEntry(net, u, k, s'[u][k].cost, lo + 1, hi + 1) && s'[u][k].seen == now
    {
      LongRefreshed(net, s, s', sent, now, lo, hi, u, k);
    }
    forall u, t, p | u in net.nodes && Arrival(net, p, u, t, lo + 1, hi + 1) ensures Matched(net, s'[u], t, p) {
      LongMatched(net, s, s', sent, now, lo, hi, u, t, p);
    }
  }

  // ---------------------------------------------------------------- the purge that drops the direct routes

  /** A cheapest walk comes to its end only once. */
  lemma ShortestArrives(net: Net, q: seq<NodeId>, h: NodeId, t: NodeId, n: nat)
    requires NetOk(net) && h != t && Route(net, q, h, t, n) && Shortest(net, h, t, n, Cost(net, q))
    ensures Arrival(net, q, h, t, 1, n)
  {
    var last := |q| - 1;
    if t in q[..last] {
      var i :| 0 <= i < last && q[..last][i] == t;
      assert Route(net, q[..i + 1], h, t, n);
      PrefixCheaper(net, q, i);
    }
  }

  lemma PrefixCheaper(net: Net, q: seq<NodeId>, i: nat)
    requires NetOk(net) && 1 <= i < |q| - 1
    ensures Cost(net, q[..i + 1]) < Cost(net, q)
  {
    var r, a, b := q[..i + 1], q[1..i], q[i..|q| - 1];
    assert q[1..][..|q| - 2] == a + b && r[1..][..|r| - 2] == a;
    SumConcat(net.imp, a, b);
    SumAtLeast(net.imp, b);
  }

  /** What the purge leaves: the entries through relays. */
  lemma LeftAfterPurge(s: Tables, at: int, before: int, cutoff: int, u: NodeId, k: RouteKey)
    requires Dated(s, at, before) && at <= cutoff < before && u in s
    ensures k in Purged(s, cutoff)[u] <==> k in s[u] && k.target != k.via
    ensures k in Purged(s, cutoff)[u] ==> Purged(s, cutoff)[u][k] == s[u][k]
  {
  }

  lemma RelayedIsLong(net: Net, run: seq<Tables>, n: nat, u: NodeId, k: RouteKey)
    requires NetOk(net) && IsRun(net, run) && |run| == n + 2
    requires run[n + 1].Keys == net.nodes && u in net.nodes && k in run[n + 1][u] && k.target != k.via
    ensures LongEntry(net, u, k, run[n + 1][u][k].cost, 2, n + 2)
  {
    hide IsRun, Sound, Full, Fed, Round, NetOk, BestCost, Targets, Arrival;
    var i := n + 1;
    RunKeeps(net, run, n);
    RunKeeps(net, run, i);
    RoundOf(net, run, i);
    FedBefore(net, run[n], run[i], u, k);
    SoundAt(net, run[i], i + 1, u, k);
    RoundIs(net, run[n], run[i], u, k);
    RoundsComputeShortest(net, run, n, k.via, k.target);
    var q :| Route(net, q, k.via, k.target, i) && Cost(net, q) == BestCost(run[n][k.via], k.target);
    ShortestArrives(net, q, k.via, k.target, i);
    ArrivalCons(net, u, q, k.via, k.target, 1, i);
  }

  lemma LongIsRelayed(net: Net, run: seq<Tables>, n: nat, u: NodeId, t: NodeId, p: seq<NodeId>)
    requires NetOk(net) && IsRun(net, run) && |run| == n + 2
    requires run[n + 1].Keys == net.nodes && u in net.nodes && Arrival(net, p, u, t, 2, n + 2)
    ensures p[1] != t && Matched(net, run[n + 1][u], t, p)
  {
    hide IsRun, Sound, Full, Fed, Round, BestCost, Targets;
    var i := n + 1;
    RunKeeps(net, run, n);
    RunKeeps(net, run, i);
    RoundOf(net, run, i);
    ArrivalTail(net, p, u, t, 1, i);
    var h, q := p[1], p[1..];
    assert Route(net, q, h, t, i);
    RoundsComputeShortest(net, run, n, h, t);
    RoundIs(net, run[n], run[i], u, RouteKey(t, h));
  }

  lemma PurgeLong(net: Net, run: seq<Tables>, n: nat, at: int, before: int, cutoff: int)
    requires NetOk(net) && IsRun(net, run) && |run| == n + 2
    requires Dated(run[n + 1], at, before) && at <= cutoff < before && run[n + 1].Keys == net.nodes
    ensures LongSound(net, Purged(run[n + 1], cutoff), 2, n + 2)
    ensures LongFull(net, Purged(run[n + 1], cutoff), 2, n + 2)
  {
    hide IsRun, NetOk, LongEntry, Arrival;
    var s: Tables := run[n + 1];
    var left: Tables := Purged(s, cutoff);
    forall u, k | u in net.nodes && k in left[u] ensures LongEntry(net, u, k, left[u][k].cost, 2, n + 2) {
      LeftAfterPurge(s, at, before, cutoff, u, k);
      RelayedIsLong(net, run, n, u, k);
    }
    forall u, t, p | u in net.nodes && Arrival(net, p, u, t, 2, n + 2) ensures |p| >= 2 && Matched(net, left[u], t, p) {
      ArrivalSize(net, p, u, t, 2, n + 2);
      LongIsRelayed(net, run, n, u, t, p);
      LeftAfterPurge(s, at, before, cutoff, u, RouteKey(t, p[1]));
    }
  }

  // ---------------------------------------------------------------- after three intervals

  /** The tick that drops the direct routes. */
  lemma ExpiringTick(net: Net, run: seq<Tables>, s': Tables, at: int, before: int, now: int, interval: int, n: nat)
    requires NetOk(net) && IsRun(net, run) && |run| == n + 2 && run[n + 1].Keys == net.nodes && n >= 1
    requires Dated(run[n + 1], at, before) && Tick(net, run[n + 1], s', now, interval)
    requires at + 3 * interval <= now && Near(before, now, interval)
    ensures LongSound(net, s', 3, n + 3) && LongFull(net, s', 3, n + 3) && Recent(s', now)
  {
    hide IsRun, NetOk, LongSound, LongFull, Dated, Recent, IsRoundOf;
    var cutoff := now - 3 * interval;
    PurgeLong(net, run, n, at, before, cutoff);
    var left := Purged(run[n + 1], cutoff);
    var sent :| IsRoundOf(net, left, s', sent, now);
    RoundLong(net, left, s', sent, now, 2, n + 2);
  }

  /** Later ticks drop nothing. */
  lemma LateTick(net: Net, s: Tables, s': Tables, before: int, now: int, interval: int, lo: nat, hi: nat)
    requires NetOk(net) && Tick(net, s, s', now, interval) && Recent(s, before) && Near(before, now, interval)
    requires LongSound(net, s, lo, hi) && LongFull(net, s, lo, hi) && 2 <= lo < hi
    ensures LongSound(net, s', lo + 1, hi + 1) && LongFull(net, s', lo + 1, hi + 1) && Recent(s', now)
  {
    hide NetOk, LongSound, LongFull, IsRoundOf;
    NothingPurged(s, now - 3 * interval);
    var sent :| IsRoundOf(net, s, s', sent, now);
    RoundLong(net, s, s', sent, now, lo, hi);
  }

  /** Tick `m` is the first after three intervals. */
  ghost predicate Expires(times: seq<int>, interval: int, m: nat)
  {
    3 <= m < |times| && Expired(times, interval, m) && !Expired(times, interval, m - 1)
  }

  lemma TickKeys(net: Net, run: seq<Tables>, times: seq<int>, interval: int, k: nat)
    requires IsTicked(net, run, times, interval) && k < |run|
    ensures run[k].Keys == net.nodes
  {
    if k > 0 {
      TickOf(net, run, times, interval, k);
    }
  }

  lemma {:induction false} AfterExpiry(net: Net, run: seq<Tables>, times: seq<int>, interval: int, m: nat, k: nat)
    requires NetOk(net) && IsTicked(net, run, times, interval) && Expires(times, interval, m) && m <= k < |run|
    ensures run[k].Keys == net.nodes && Recent(run[k], times[k])
    ensures LongSound(net, run[k], k - m + 3, k + 1) && LongFull(net, run[k], k - m + 3, k + 1)
  {
    hide StartedAt, Tick, NetOk, IsRun, Dated, LongSound, LongFull, Recent, Ticking;
    TickKeys(net, run, times, interval, k);
    TickKeys(net, run, times, interval, k - 1);
    TickOf(net, run, times, interval, k);
    if k == m {
      var early := run[..m];
      BeforeExpiry(net, run, times, interval, m - 1);
      assert early[m - 1] == run[m - 1];
      ExpiringTick(net, early, run[k], times[0], times[m - 1], times[k], interval, m - 2);
    } else {
      AfterExpiry(net, run, times, interval, m, k - 1);
      LateTick(net, run[k - 1], run[k], times[k - 1], times[k], interval, k - m + 2, k);
    }
  }

  lemma Expiry(net: Net, run: seq<Tables>, times: seq<int>, interval: int, k: nat) returns (m: nat)
    requires NetOk(net) && IsTicked(net, run, times, interval) && k < |run| && Expired(times, interval, k)
    ensures m <= k && Expires(times, interval, m)
    ensures run[k].Keys == net.nodes
    ensures LongSound(net, run[k], k - m + 3, k + 1) && LongFull(net, run[k], k - m + 3, k + 1)
  {
    m := FirstExpired(times, interval, k);
    AfterExpiry(net, run, times, interval, m, k);
  }

  // ---------------------------------------------------------------- what ticked rounds compute

  ghost predicate CanArrive(net: Net, u: NodeId, t: NodeId, lo: nat, hi: nat)
  {
    exists p :: Arrival(net, p, u, t, lo, hi)
  }

  /** `c` is the least cost of such a walk. */
  ghost predicate LeastArrival(net: Net, u: NodeId, t: NodeId, lo: nat, hi: nat, c: real)
  {
    && (exists p :: Arrival(net, p, u, t, lo, hi) && Cost(net, p) == c)
    && (forall p :: Arrival(net, p, u, t, lo, hi) ==> c <= Cost(net, p))
  }

  /**
   From the first tick `m` after three intervals on, a target is known after round k
   exactly when a walk of k - m + 3 to k + 1 links comes to it at its end and not
   before, and its least cost is that of the cheapest such walk.
   */
  lemma TickedCosts(net: Net, run: seq<Tables>, times: seq<int>, interval: int, m: nat, k: nat, u: NodeId, t: NodeId)
    requires NetOk(net) && IsTicked(net, run, times, interval) && Expires(times, interval, m) && m <= k < |run|
    requires u in net.nodes
    ensures run[k].Keys == net.nodes
    ensures t in Targets(run[k][u]) <==> CanArrive(net, u, t, k - m + 3, k + 1)
    ensures t in Targets(run[k][u]) ==> LeastArrival(net, u, t, k - m + 3, k + 1, BestCost(run[k][u], t))
  {
    hide Tick, StartedAt, Ticking, NetOk, LongSound, LongFull, Joins, Targets, BestCost, Expires;
    AfterExpiry(net, run, times, interval, m, k);
    var lo, hi := k - m + 3, k + 1;
    if t in Targets(run[k][u]) {
      var via := BestEntry(run[k][u], t);
      var p := LongSoundAt(net, run[k], lo, hi, u, RouteKey(t, via));
    }
    forall p | Arrival(net, p, u, t, lo, hi) ensures t in Targets(run[k][u]) && BestCost(run[k][u], t) <= Cost(net, p) {
      LongFullAt(net, run[k], lo, hi, u, t, p);
      BestAtMost(run[k][u], RouteKey(t, p[1]));
    }
  }

  /** No jitter and no delay of the first tick. */
  ghost predicate Regular(times: seq<int>, interval: int)
  {
    forall i :: 0 <= i < |times| ==> times[i] == times[0] + i * interval
  }

  /** With regular ticks, from round 3 on every stored cost is that of a walk of k or k + 1 links, and so at least k. */
  lemma CountsToInfinity(net: Net, run: seq<Tables>, times: seq<int>, interval: int, k: nat, u: NodeId, e: RouteKey)
    requires NetOk(net) && IsTicked(net, run, times, interval) && Regular(times, interval) && 3 <= k < |run|
    requires run[k].Keys == net.nodes && u in net.nodes && e in run[k][u]
    ensures exists p :: Arrival(net, p, u, e.target, k, k + 1) && p[1] == e.via && Cost(net, p) == run[k][u][e].cost
    ensures run[k][u][e].cost >= k as real
  {
    hide NetOk, LongSound, LongFull, Arrival, Tick, StartedAt;
    var two, three := 2, 3;
    assert times[two] == times[0] + 2 * interval && times[three] == times[0] + 3 * interval;
    AfterExpiry(net, run, times, interval, three, k);
    var p := LongSoundAt(net, run[k], k, k + 1, u, e);
    LongCost(net, p, u, e.target, k, k + 1);
  }

  lemma LongCost(net: Net, p: seq<NodeId>, u: NodeId, t: NodeId, lo: nat, hi: nat)
    requires NetOk(net) && Arrival(net, p, u, t, lo, hi)
    ensures Cost(net, p) >= lo as real
  {
    SumAtLeast(net.imp, p[1..][..|p| - 2]);
  }

  /** What is known once stays known, at costs that grow without bound. */
  lemma KnownForGood(net: Net, run: seq<Tables>, times: seq<int>, interval: int, m: nat, k: nat, u: NodeId, t: NodeId)
    requires NetOk(net) && IsTicked(net, run, times, interval) && Expires(times, interval, m) && m <= k < |run| - 1
    requires run[k].Keys == run[k + 1].Keys == net.nodes && u in net.nodes && t in Targets(run[k][u])
    ensures t in Targets(run[k + 1][u]) && BestCost(run[k + 1][u], t) >= (k - m + 4) as real
  {
    hide Tick, StartedAt, Ticking, NetOk, LongSound, LongFull, Joins, Targets, BestCost;
    AfterExpiry(net, run, times, interval, m, k);
    var via := BestEntry(run[k][u], t);
    LongFed(net, run[k], k - m + 3, k + 1, u, RouteKey(t, via));
    TickedCosts(net, run, times, interval, m, k, via, t);
    var lo, hi := k - m + 4, k + 2;
    var q :| Arrival(net, q, via, t, lo - 1, hi - 1);
    ArrivalCons(net, u, q, via, t, lo - 1, hi - 1);
    var p := [u] + q;
    TickedCosts(net, run, times, interval, m, k + 1, u, t);
    assert Arrival(net, p, u, t, lo, hi);
    var best :| Arrival(net, best, u, t, lo, hi) && Cost(net, best) == BestCost(run[k + 1][u], t);
    LongCost(net, best, u, t, lo, hi);
  }

  // ---------------------------------------------------------------- exactly how long the rounds are shortest-path rounds

  lemma NoDirect(net: Net, run: seq<Tables>, times: seq<int>, interval: int, k: nat, u: NodeId, v: NodeId)
    requires NetOk(net) && IsTicked(net, run, times, interval) && k < |run| && Expired(times, interval, k)
    requires run[k].Keys == net.nodes && u in net.nodes
    ensures RouteKey(v, v) !in run[k][u]
  {
    hide Tick, StartedAt, Ticking, NetOk, LongSound, LongFull, Arrival, Targets, Expires;
    var m := Expiry(net, run, times, interval, k);
    if RouteKey(v, v) in run[k][u] {
      LongFed(net, run[k], k - m + 3, k + 1, u, RouteKey(v, v));
    }
  }

  /** A live neighbour has a direct route exactly until three intervals after it registered. */
  lemma DirectRouteExactly(net: Net, run: seq<Tables>, times: seq<int>, interval: int, k: nat, u: NodeId, v: NodeId)
    requires NetOk(net) && IsTicked(net, run, times, interval) && k < |run| && (u, v) in net.links
    ensures run[k].Keys == net.nodes && u in net.nodes
    ensures RouteKey(v, v) in run[k][u] <==> !Expired(times, interval, k)
  {
    hide Tick, StartedAt, Ticking, Sound, Full, Fed, IsRun;
    TickKeys(net, run, times, interval, k);
    if Expired(times, interval, k) {
      NoDirect(net, run, times, interval, k, u, v);
    } else {
      BeforeExpiry(net, run, times, interval, k);
      RunKeeps(net, run[..k + 1], k);
      assert run[..k + 1][k] == run[k];
      DirectCost(net, run[k], u, v);
    }
  }

  /** Ticked rounds are rounds without purging exactly until three intervals have passed. */
  lemma RoundsExactly(net: Net, run: seq<Tables>, times: seq<int>, interval: int, k: nat)
    requires NetOk(net) && IsTicked(net, run, times, interval) && k < |run| && net.links != {}
    ensures IsRun(net, run[..k + 1]) <==> !Expired(times, interval, k)
  {
    hide Tick, StartedAt, Ticking, Sound, Full, Fed, IsRun;
    if !Expired(times, interval, k) {
      BeforeExpiry(net, run, times, interval, k);
    } else if IsRun(net, run[..k + 1]) {
      var link :| link in net.links;
      RunKeeps(net, run[..k + 1], k);
      assert run[..k + 1][k] == run[k] && (link.0, link.1) in net.links;
      DirectCost(net, run[k], link.0, link.1);
      DirectRouteExactly(net, run, times, interval, k, link.0, link.1);
    }
  }

  /** Until then, every round has computed the shortest walks of at most k + 1 links. */
  lemma TickedShortest(net: Net, run: seq<Tables>, times: seq<int>, interval: int, k: nat, u: NodeId, t: NodeId)
    requires NetOk(net) && IsTicked(net, run, times, interval) && k < |run| && !Expired(times, interval, k)
    requires u in net.nodes && u != t
    ensures run[k].Keys == net.nodes
    ensures t in Targets(run[k][u]) <==> Reaches(net, u, t, k + 1)
    ensures t in Targets(run[k][u]) ==> Shortest(net, u, t, k + 1, BestCost(run[k][u], t))
  {
    hide Tick, StartedAt, Ticking, IsRun, Targets, BestCost;
    BeforeExpiry(net, run, times, interval, k);
    RoundsComputeShortest(net, run[..k + 1], k, u, t);
    assert run[..k + 1][k] == run[k];
  }

  // ---------------------------------------------------------------- exactly how long frames arrive

  /** A frame never reaches its target any more, because nobody has it as a next hop. */
  lemma NeverArrives(net: Net, run: seq<Tables>, times: seq<int>, interval: int, k: nat, t: NodeId, q: seq<NodeId>)
    requires NetOk(net) && IsTicked(net, run, times, interval) && k < |run| && Expired(times, interval, k)
    requires run[k].Keys == net.nodes && Forwards(net, run[k], t, q) && q[0] != t
    ensures t !in q
  {
    hide Tick, StartedAt, Ticking, NetOk, Targets;
    if t in q {
      var j :| 0 <= j < |q| && q[j] == t;
      var i := j - 1;
      assert Hands(net, run[k], t, q[i], q[j]);
      NoDirect(net, run, times, interval, k, q[i], t);
    }
  }

  /** It can always be handed on, and so for as many hops as one likes. */
  lemma {:induction false} GoesOn(net: Net, s: Tables, lo: nat, hi: nat, t: NodeId, u: NodeId, n: nat) returns (q: seq<NodeId>)
    requires NetOk(net) && s.Keys == net.nodes && LongSound(net, s, lo, hi) && LongFull(net, s, lo, hi) && 2 <= lo < hi
    requires u in net.nodes && t in Targets(s[u])
    ensures Forwards(net, s, t, q) && q[0] == u && |q| == n + 1 && forall v :: v in q ==> v in net.nodes
    decreases n
  {
    hide NetOk, LongSound, LongFull, Targets;
    q := [u];
    if n > 0 {
      var via := BestEntry(s[u], t);
      LongFed(net, s, lo, hi, u, RouteKey(t, via));
      assert Hands(net, s, t, u, via);
      var rest := GoesOn(net, s, lo, hi, t, via, n - 1);
      q := [u] + rest;
      forall i, j | 0 <= i && j == i + 1 && j < |q| ensures Hands(net, s, t, q[i], q[j]) {
        if i > 0 {
          assert q[i] == rest[i - 1] && q[j] == rest[j - 1];
        }
      }
    }
  }

  /** Some frame for a known target visits a node twice. */
  lemma LoopExists(net: Net, run: seq<Tables>, times: seq<int>, interval: int, k: nat, t: NodeId, u: NodeId)
    returns (q: seq<NodeId>)
    requires NetOk(net) && IsTicked(net, run, times, interval) && k < |run| && Expired(times, interval, k)
    requires run[k].Keys == net.nodes && u in net.nodes && t in Targets(run[k][u])
    ensures Forwards(net, run[k], t, q) && q[0] == u && !Distinct(q)
  {
    hide Tick, StartedAt, Ticking, NetOk, LongSound, LongFull, Targets, Expires, Forwards;
    var m := Expiry(net, run, times, interval, k);
    q := GoesOn(net, run[k], k - m + 3, k + 1, t, u, |net.nodes|);
    var i, j := Repeats(q, net.nodes);
  }

  /** Every way of handing a frame on from `u` visits no node twice. */
  ghost predicate LoopFree(net: Net, s: Tables, u: NodeId, t: NodeId)
    requires s.Keys == net.nodes
  {
    forall q :: Forwards(net, s, t, q) && q[0] == u ==> Distinct(q)
  }

  /** Some way of handing a frame on from `u` arrives. */
  ghost predicate Arrives(net: Net, s: Tables, u: NodeId, t: NodeId)
    requires s.Keys == net.nodes
  {
    exists q :: Forwards(net, s, t, q) && q[0] == u && q[|q| - 1] == t
  }

  /**
   Frames for a known target are forwarded without loops, and arrive, exactly until
   three intervals after the peers registered. From then on none arrives.
   */
  lemma DeliversExactly(net: Net, run: seq<Tables>, times: seq<int>, interval: int, k: nat, u: NodeId, t: NodeId)
    requires NetOk(net) && IsTicked(net, run, times, interval) && k < |run|
    requires run[k].Keys == net.nodes && u in net.nodes && u != t && t in Targets(run[k][u])
    ensures LoopFree(net, run[k], u, t) <==> !Expired(times, interval, k)
    ensures Arrives(net, run[k], u, t) <==> !Expired(times, interval, k)
  {
    hide Tick, StartedAt, Ticking, NetOk, Targets, IsRun;
    if Expired(times, interval, k) {
      var q := LoopExists(net, run, times, interval, k, t, u);
      if Arrives(net, run[k], u, t) {
        var p :| Forwards(net, run[k], t, p) && p[0] == u && p[|p| - 1] == t;
        NeverArrives(net, run, times, interval, k, t, p);
      }
    } else {
      BeforeExpiry(net, run, times, interval, k);
      assert run[..k + 1][k] == run[k];
      EarlyDelivery(net, run[..k + 1], k, u, t);
    }
  }

  lemma EarlyDelivery(net: Net, run: seq<Tables>, k: nat, u: NodeId, t: NodeId)
    requires NetOk(net) && IsRun(net, run) && k < |run|
    requires run[k].Keys == net.nodes && u in net.nodes && u != t && t in Targets(run[k][u])
    ensures LoopFree(net, run[k], u, t) && Arrives(net, run[k], u, t)
  {
    hide IsRun, NetOk, Targets, Descending;
    RoundsDescend(net, run, k);
    forall v, e | v in net.nodes && e in run[k][v] ensures run[k][v][e].cost >= 1.0 {
      EntryCost(net, run, k, v, e);
    }
    forall q | Forwards(net, run[k], t, q) && q[0] == u ensures Distinct(q) {
      ForwardingArrives(net, run[k], t, q);
    }
    var q := DeliveryExists(net, run[k], t, u);
  }
}
